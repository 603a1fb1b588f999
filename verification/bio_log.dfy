/** log.c as a user of the buffer cache: what it and its callers do so that no buffer loses its contents, and what
    happens when a caller does not. */
module BufferLog {
  import opened BufferMachine

  /** lh has the blocks that the header names and that are not installed yet. */
  datatype Shared = Shared(c: Cache, lh: set<Key>)

  /** A step on the cache, or a call of log_write, or the bunpin of install_trans. */
  datatype Act = Own(s: Step) | LogWrite(t: int, b: int) | Install(t: int, b: int)

  ghost predicate InHeader(h: Shared, b: int)
    requires 0 <= b < |h.c.bufs|
  {
    KeyOf(h.c.bufs[b]) in h.lh
  }

  /** Every thread may take any step of the cache but two: a buffer is not unlocked with contents that are neither on
      the disk nor given to log_write, and bunpin is called with the lock held, after bwrite. */
  ghost predicate Can(h: Shared, a: Act) {
    match a
    case Own(s) => !s.Pin? && !s.Unpin? && Enabled(h.c, s) && (s.Unlock? ==> Clean(h.c, s.b) || InHeader(h, s.b))
    case LogWrite(t, b) => Locked(h.c, t, b)
    case Install(t, b) => Locked(h.c, t, b) && InHeader(h, b) && Clean(h.c, b) && Holds(h.c, PIN, b)
  }

  ghost function Do(h: Shared, a: Act): Shared
    requires Can(h, a)
  {
    match a
    case Own(s) => Shared(After(h.c, s), h.lh)
    case LogWrite(t, b) =>
      if InHeader(h, b) then h else Shared(After(h.c, Pin(t, b)), h.lh + {KeyOf(h.c.bufs[b])})
    case Install(t, b) => Shared(After(h.c, Unpin(t, b)), h.lh - {KeyOf(h.c.bufs[b])})
  }

  // ----- What every run keeps -----

  /** A buffer has one pin if the header names its block, and none otherwise. */
  ghost predicate PinOk(h: Shared, b: int)
    requires IsBuf(h.c, b)
  {
    h.c.ghost_.refs[b][PIN] == if h.c.bufs[b].dev != 0 && InHeader(h, b) then 1 else 0
  }

  ghost predicate PinsOk(h: Shared) {
    && Sizes(h.c) && (forall b :: 0 <= b < |h.c.bufs| ==> PinOk(h, b))
    && forall k :: k in h.lh ==> k.0 != 0 && exists b :: 0 <= b < |h.c.bufs| && Cached(h.c, b, k)
  }

  /** What is neither on the disk nor in the header is under lock. */
  ghost predicate TendedAt(h: Shared, b: int)
    requires 0 <= b < |h.c.bufs|
  {
    h.c.bufs[b].holder == NOBODY ==> Clean(h.c, b) || InHeader(h, b)
  }

  ghost predicate Tended(h: Shared) { forall b :: 0 <= b < |h.c.bufs| ==> TendedAt(h, b) }

  ghost predicate Sane(h: Shared) { Inv(h.c) && PinsOk(h) && Tended(h) && h.c.ghost_.lost == {} }

  lemma StartSane(c: Cache)
    requires Booted(c)
    ensures Sane(Shared(c, {}))
  {
    BootedInv(c);
    hide Inv, Perm, Falling;
  }

  /** The cache step that an act takes, if any. */
  ghost predicate Moves(h: Shared, a: Act, s: Step) {
    match a
    case Own(o) => s == o
    case LogWrite(t, b) => s == Pin(t, b)
    case Install(t, b) => s == Unpin(t, b)
  }

  /** A step changes one buffer, and the disk at most at its block. */
  lemma OneMoves(c: Cache, s: Step)
    requires Inv(c) && Enabled(c, s)
    ensures var d := After(c, s); var b := s.b;
            && 0 <= b < |c.bufs| == |d.bufs| && Sizes(d)
            && (forall x :: 0 <= x < |c.bufs| && x != b ==> d.bufs[x] == c.bufs[x] && d.ghost_.refs[x] == c.ghost_.refs[x])
            && (forall x :: 0 <= x < |c.bufs| && x != b && c.bufs[x].dev != 0 ==> KeyOf(c.bufs[x]) != KeyOf(c.bufs[b]))
            && (!s.Bwrite? ==> d.disk == c.disk)
            && (s.Bwrite? ==> c.disk.Keys == d.disk.Keys && forall k :: k in c.disk && k != KeyOf(c.bufs[b]) ==> d.disk[k] == c.disk[k])
            && (!s.Recycle? ==> KeyOf(d.bufs[b]) == KeyOf(c.bufs[b]) && d.bufs[b].dev == c.bufs[b].dev)
  {
    hide Inv, After, Enabled, Locked;
    OneDisk(c, s);
    UniqueAt(c, s.b);
    forall x | 0 <= x < |c.bufs| && x != s.b ensures After(c, s).bufs[x] == c.bufs[x] && After(c, s).ghost_.refs[x] == c.ghost_.refs[x] {
      OthersStay(c, s, x);
    }
  }

  /** The disk changes at most at the block of the buffer that is written. */
  lemma OneDisk(c: Cache, s: Step)
    requires Inv(c) && Enabled(c, s)
    ensures var d := After(c, s); var b := s.b;
            && IsBuf(c, b) && |d.bufs| == |c.bufs| && Sizes(d)
            && (!s.Bwrite? ==> d.disk == c.disk)
            && (s.Bwrite? ==> c.disk.Keys == d.disk.Keys && forall k :: k in c.disk && k != KeyOf(c.bufs[b]) ==> d.disk[k] == c.disk[k])
            && (!s.Recycle? ==> KeyOf(d.bufs[b]) == KeyOf(c.bufs[b]) && d.bufs[b].dev == c.bufs[b].dev)
  {
    if s.Bwrite? {
      HeldByOwner(c, s.t, s.b);
    }
    hide Inv, Victim, ToFront, Clean;
  }

  // ----- Pins -----

  lemma PinCount(r: multiset<int>, t: int)
    requires t != PIN
    ensures (r + multiset{t})[PIN] == r[PIN] == (r - multiset{t})[PIN] && multiset{t}[PIN] == 0
    ensures (r + multiset{PIN})[PIN] == r[PIN] + 1 && (r[PIN] > 0 ==> (r - multiset{PIN})[PIN] == r[PIN] - 1)
    ensures PIN in r <==> r[PIN] > 0
  {
  }

  /** An unused buffer is not in the header. */
  lemma UnusedOut(h: Shared, b: int)
    requires Inv(h.c) && PinsOk(h) && 0 <= b < |h.c.bufs| && h.c.bufs[b].refcnt == 0
    ensures KeyOf(h.c.bufs[b]) !in h.lh && h.c.ghost_.refs[b] == multiset{} && h.c.bufs[b].holder == NOBODY
  {
    assert BufOk(h.c, b) && PinOk(h, b);
    hide Perm, Falling, Unique, DiskOk;
  }

  /** A step of the cache itself pins nothing and unpins nothing. */
  lemma OwnPins(h: Shared, s: Step)
    requires Inv(h.c) && PinsOk(h) && Can(h, Own(s))
    ensures PinsOk(Do(h, Own(s)))
  {
    var d, b := After(h.c, s), s.b;
    OneMoves(h.c, s);
    OwnPinAt(h, s);
    hide Inv, Enabled, After;
    forall x | 0 <= x < |d.bufs| ensures PinOk(Shared(d, h.lh), x) {
      assert PinOk(h, x);
    }
    forall k | k in h.lh ensures exists x :: 0 <= x < |d.bufs| && Cached(d, x, k) {
      var x :| 0 <= x < |h.c.bufs| && Cached(h.c, x, k);
      assert Cached(d, x, k);
    }
  }

  lemma OwnPinAt(h: Shared, s: Step)
    requires Inv(h.c) && PinsOk(h) && Can(h, Own(s))
    ensures IsBuf(After(h.c, s), s.b) && PinOk(Shared(After(h.c, s), h.lh), s.b)
    ensures s.Recycle? ==> KeyOf(h.c.bufs[s.b]) !in h.lh
  {
    OneMoves(h.c, s);
    assert PinOk(h, s.b);
    if s.Recycle? {
      assert h.c.bufs[s.b].refcnt == 0;
      UnusedOut(h, s.b);
      assert s.key !in h.lh;
    }
    if s.Hit? || s.Drop? || s.Recycle? {
      assert s.t != PIN;
      PinCount(h.c.ghost_.refs[s.b], s.t);
    }
    hide Inv, Victim, ToFront, Clean;
  }

  /** log_write pins a buffer whose block it adds, and install_trans unpins one whose block it is done with. */
  lemma PinMoves(h: Shared, a: Act, s: Step)
    requires Inv(h.c) && PinsOk(h) && Can(h, a) && !a.Own? && Moves(h, a, s) && Do(h, a) != h
    ensures Enabled(h.c, s) && After(h.c, s) == Do(h, a).c && PinsOk(Do(h, a))
  {
    var d, b := After(h.c, s), s.b;
    var h', k := Do(h, a), KeyOf(h.c.bufs[b]);
    OneMoves(h.c, s);
    LockedDev(h.c, s.t, b);
    assert PinOk(h, b);
    PinCount(h.c.ghost_.refs[b], 0);
    assert d.bufs[b].dev != 0 && d.ghost_.refs[b] == if a.LogWrite? then h.c.ghost_.refs[b] + multiset{PIN} else h.c.ghost_.refs[b] - multiset{PIN};
    hide Inv, Enabled, After, Clean;
    forall x | 0 <= x < |d.bufs| ensures PinOk(h', x) {
      assert PinOk(h, x);
    }
    forall l | l in h'.lh ensures l.0 != 0 && exists x :: 0 <= x < |d.bufs| && Cached(d, x, l) {
      if l == k {
        assert Cached(d, b, l);
      } else {
        var x :| 0 <= x < |h.c.bufs| && Cached(h.c, x, l);
        assert Cached(d, x, l);
      }
    }
  }

  lemma LockedDev(c: Cache, t: int, b: int)
    requires Inv(c) && Locked(c, t, b)
    ensures c.bufs[b].dev != 0
  {
    assert BufOk(c, b);
    hide Perm, Falling, Unique, DiskOk;
  }

  // ----- No contents are lost -----

  lemma TendedKept(h: Shared, a: Act)
    requires Sane(h) && Can(h, a)
    ensures Tended(Do(h, a))
  {
    if a.Own? {
      OwnTended(h, a.s);
    } else if Do(h, a) != h {
      var s := if a.LogWrite? then Pin(a.t, a.b) else Unpin(a.t, a.b);
      PinMoves(h, a, s);
      OneMoves(h.c, s);
      LockedDev(h.c, s.t, s.b);
      var d := Do(h, a);
      assert d.c.bufs[s.b].holder == h.c.bufs[s.b].holder != NOBODY;
      hide Inv, PinsOk, Enabled, After;
      forall x | 0 <= x < |d.c.bufs| ensures TendedAt(d, x) {
        assert TendedAt(h, x);
      }
    }
  }

  lemma OwnTended(h: Shared, s: Step)
    requires Sane(h) && Can(h, Own(s))
    ensures Tended(Do(h, Own(s)))
  {
    var d := Do(h, Own(s));
    OneMoves(h.c, s);
    OwnTendedAt(h, s);
    hide Inv, PinsOk, Enabled, After;
    forall x | 0 <= x < |d.c.bufs| ensures TendedAt(d, x) {
      assert TendedAt(h, x);
    }
  }

  lemma OwnTendedAt(h: Shared, s: Step)
    requires Sane(h) && Can(h, Own(s))
    ensures 0 <= s.b < |Do(h, Own(s)).c.bufs| && TendedAt(Do(h, Own(s)), s.b)
  {
    OneMoves(h.c, s);
    assert TendedAt(h, s.b);
    hide Inv, PinsOk, Victim, ToFront;
  }

  lemma SaneKept(h: Shared, a: Act)
    requires Sane(h) && Can(h, a)
    ensures Sane(Do(h, a))
  {
    TendedKept(h, a);
    if a.Own? {
      StepKept(h.c, a.s);
      OwnPins(h, a.s);
      KeepsAll(h, a.s);
    } else if Do(h, a) != h {
      var s := if a.LogWrite? then Pin(a.t, a.b) else Unpin(a.t, a.b);
      PinMoves(h, a, s);
      StepKept(h.c, s);
      KeepsAll(h, s);
    }
    hide Inv, PinsOk, Tended, Can;
  }

  /** A buffer that is recycled is clean. */
  lemma KeepsAll(h: Shared, s: Step)
    requires Sane(h) && Enabled(h.c, s)
    ensures After(h.c, s).ghost_.lost == {}
  {
    if s.Recycle? {
      UnusedOut(h, s.b);
      assert TendedAt(h, s.b);
    }
    forall k ensures k !in After(h.c, s).ghost_.lost {
      LostGrows(h.c, s, k);
    }
    hide Inv, Enabled, After;
  }

  ghost predicate IsRun(h: Shared, acts: seq<Act>)
    decreases |acts|
  {
    acts == [] || (Can(h, acts[0]) && IsRun(Do(h, acts[0]), acts[1..]))
  }

  ghost function Run(h: Shared, acts: seq<Act>): Shared
    requires IsRun(h, acts)
    decreases |acts|
  {
    if acts == [] then h else Run(Do(h, acts[0]), acts[1..])
  }

  /** In every interleaving of any number of threads that go through the log, nothing is lost, and a buffer is
      pinned exactly while the header names its block. */
  lemma {:induction false} LogLosesNothing(h: Shared, acts: seq<Act>)
    requires Sane(h) && IsRun(h, acts)
    ensures Sane(Run(h, acts)) && Run(h, acts).c.ghost_.lost == {}
    decreases |acts|
  {
    if acts != [] {
      SaneKept(h, acts[0]);
      hide Sane, Can, Do;
      LogLosesNothing(Do(h, acts[0]), acts[1..]);
    }
  }

  /** So bread sees the latest contents. */
  lemma BreadAfterLog(c: Cache, acts: seq<Act>, t: int, b: int)
    requires Booted(c) && IsRun(Shared(c, {}), acts)
    requires var d := Run(Shared(c, {}), acts).c; Locked(d, t, b) && d.bufs[b].valid
    ensures var d := Run(Shared(c, {}), acts).c;
            KeyOf(d.bufs[b]) in d.ghost_.latest && d.bufs[b].data == d.ghost_.latest[KeyOf(d.bufs[b])]
  {
    StartSane(c);
    LogLosesNothing(Shared(c, {}), acts);
    var d := Run(Shared(c, {}), acts).c;
    LockedDev(d, t, b);
    assert BufOk(d, b);
    hide Run, Perm, Falling, Unique, PinsOk, Tended;
  }

  // ----- The threads that come through log.c, between steps of others -----

  /** From log_write to brelse: while the thread keeps the lock, whatever others do, the block stays in the header,
      and so the buffer may be unlocked. */
  lemma {:induction false} StillLogged(h: Shared, acts: seq<Act>, t: int, b: int)
    requires Sane(h) && IsRun(h, acts) && Locked(h.c, t, b) && InHeader(h, b)
    requires forall i :: 0 <= i < |acts| ==> acts[i] != Own(Unlock(t, b)) && acts[i] != Install(t, b)
    ensures var d := Run(h, acts); Locked(d.c, t, b) && InHeader(d, b) && Can(d, Own(Unlock(t, b)))
    decreases |acts|
  {
    if acts != [] {
      SaneKept(h, acts[0]);
      LoggedStep(h, acts[0], t, b);
      hide Sane, Can, Do, InHeader, Locked;
      assert forall i :: 0 <= i < |acts[1..]| ==> acts[1..][i] == acts[i + 1];
      StillLogged(Do(h, acts[0]), acts[1..], t, b);
    }
  }

  lemma LoggedStep(h: Shared, a: Act, t: int, b: int)
    requires Sane(h) && Can(h, a) && Locked(h.c, t, b) && InHeader(h, b) && a != Own(Unlock(t, b)) && a != Install(t, b)
    ensures Locked(Do(h, a).c, t, b) && InHeader(Do(h, a), b)
  {
    LockStays(h, a, t, b);
    if a.Install? {
      UniqueAt(h.c, a.b);
      LockedDev(h.c, t, b);
    }
    hide Sane, Enabled, After, Clean;
  }

  /** Whoever has the lock of a buffer keeps it, and the buffer its block, until it is given back. */
  lemma LockStays(h: Shared, a: Act, t: int, b: int)
    requires Sane(h) && Can(h, a) && Locked(h.c, t, b) && a != Own(Unlock(t, b))
    ensures Locked(Do(h, a).c, t, b) && KeyOf(Do(h, a).c.bufs[b]) == KeyOf(h.c.bufs[b])
  {
    assert Inv(h.c);
    hide Sane, Clean, InHeader, Inv, After, Locked, Holds, Enabled;
    match a {
      case Own(s) => LockHeld(h.c, s, t, b);
      case LogWrite(u, d) =>
        if !InHeader(h, d) {
          PinCan(h.c, u, d);
          LockHeld(h.c, Pin(u, d), t, b);
        }
      case Install(u, d) =>
        PinCan(h.c, u, d);
        LockHeld(h.c, Unpin(u, d), t, b);
    }
  }

  lemma PinCan(c: Cache, t: int, b: int)
    ensures Locked(c, t, b) ==> Enabled(c, Pin(t, b))
    ensures Holds(c, PIN, b) ==> Enabled(c, Unpin(t, b))
  {
  }

  /** From bwrite to bunpin and brelse in install_trans: while the thread has the lock and does not change the
      buffer, it stays clean. */
  lemma {:induction false} StillClean(h: Shared, acts: seq<Act>, t: int, b: int)
    requires Sane(h) && IsRun(h, acts) && Locked(h.c, t, b) && Clean(h.c, b) && h.c.bufs[b].valid
    requires forall i :: 0 <= i < |acts| ==> acts[i] != Own(Unlock(t, b)) && !(acts[i].Own? && acts[i].s.Modify? && acts[i].s.b == b)
    ensures var d := Run(h, acts);
            Locked(d.c, t, b) && Clean(d.c, b) && Can(d, Own(Unlock(t, b))) && (InHeader(d, b) ==> Can(d, Install(t, b)))
    decreases |acts|
  {
    if acts == [] {
      LockedDev(h.c, t, b);
      assert PinOk(h, b);
      PinCount(h.c.ghost_.refs[b], 0);
    } else {
      SaneKept(h, acts[0]);
      CleanStep(h, acts[0], t, b);
      hide Sane, Can, Do, InHeader, Locked, Clean;
      assert forall i :: 0 <= i < |acts[1..]| ==> acts[1..][i] == acts[i + 1];
      StillClean(Do(h, acts[0]), acts[1..], t, b);
    }
  }

  lemma CleanStep(h: Shared, a: Act, t: int, b: int)
    requires Sane(h) && Can(h, a) && Locked(h.c, t, b) && Clean(h.c, b) && h.c.bufs[b].valid
    requires a != Own(Unlock(t, b)) && !(a.Own? && a.s.Modify? && a.s.b == b)
    ensures Locked(Do(h, a).c, t, b) && Clean(Do(h, a).c, b) && Do(h, a).c.bufs[b].valid
  {
    LockStays(h, a, t, b);
    LockedDev(h.c, t, b);
    InUse(h.c, t, b);
    if a.Own? {
      OneMoves(h.c, a.s);
    }
    hide Sane, InHeader, Stamped, Victim;
  }
}
