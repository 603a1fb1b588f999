/** What becomes of a buffer that is changed and released without log_write, as writei does when the user's memory
    gives out in a chunk: a run of the cache in which contents are lost. */
module BufferFault {
  import opened BufferMachine
  import BufferLog

  lemma OneMore(c: Cache, steps: seq<Step>, s: Step)
    requires IsRun(c, steps) && Enabled(Run(c, steps), s)
    ensures IsRun(c, steps + [s]) && Run(c, steps + [s]) == After(Run(c, steps), s)
    decreases |steps|
  {
    hide Enabled, After;
    if steps == [] {
      assert [s][1..] == [] && steps + [s] == [s];
      assert IsRun(After(c, s), []);
    } else {
      OneMore(After(c, steps[0]), steps[1..], s);
      assert (steps + [s])[1..] == steps[1..] + [s];
    }
  }

  /** Buffer b is the only unused one. */
  ghost predicate OnlyUnused(c: Cache, b: int) {
    0 <= b < |c.bufs| && c.bufs[b].refcnt == 0 && forall x :: 0 <= x < |c.bufs| && x != b ==> c.bufs[x].refcnt != 0
  }

  lemma OnlyVictim(c: Cache, b: int)
    requires Inv(c) && OnlyUnused(c, b)
    ensures Victim(c, b)
  {
    hide Falling, Unique, DiskOk, BufOk;
    assert b in c.lru;
    var p :| 0 <= p < |c.lru| && c.lru[p] == b;
  }

  /** b holds the contents `data` for block k, which the disk has not got, and nobody refers to it. */
  ghost predicate LeftBehind(c: Cache, b: int, k: Key, data: Block) {
    && Inv(c) && OnlyUnused(c, b) && KeyOf(c.bufs[b]) == k && c.bufs[b].valid && c.bufs[b].data == data && k.0 != 0
    && k in c.disk && c.disk[k] != data && k in c.ghost_.latest && c.ghost_.latest[k] == data && c.bufs[b].holder == NOBODY
  }

  /** The thread has the only buffer that is not in use by others. */
  ghost predicate AtWork(c: Cache, t: int, b: int, k: Key) {
    && Inv(c) && Locked(c, t, b) && c.bufs[b].valid && KeyOf(c.bufs[b]) == k && k in c.disk && k.0 != 0
    && c.ghost_.refs[b] == multiset{t} && c.bufs[b].refcnt == 1
    && forall x :: 0 <= x < |c.bufs| && x != b ==> c.bufs[x].refcnt != 0
  }

  /** bread was before; either_copyin changes the buffer and fails; brelse. */
  function Fault(t: int, b: int, data: Block): seq<Step> { [Modify(t, b, data), Unlock(t, b), Drop(t, b)] }

  /** That is a run, it is not a careful one, and it leaves the data behind. */
  lemma FaultLeaves(c: Cache, t: int, b: int, k: Key, data: Block)
    requires AtWork(c, t, b, k) && c.disk[k] != data
    ensures IsRun(c, Fault(t, b, data)) && !CarefulRun(c, Fault(t, b, data))
    ensures var d := Run(c, Fault(t, b, data));
            LeftBehind(d, b, k, data) && d.disk == c.disk && |d.bufs| == |c.bufs|
            && forall x :: 0 <= x < |c.bufs| && x != b ==> KeyOf(d.bufs[x]) == KeyOf(c.bufs[x])
  {
    Changed(c, t, b, k, data);
    var c2 := After(After(c, Modify(t, b, data)), Unlock(t, b));
    Released(c2, t, b, k, data);
    hide Inv, After, Enabled, LeftBehind;
    Three(c, Modify(t, b, data), Unlock(t, b), Drop(t, b));
  }

  /** The thread has released the lock, but not yet its reference. */
  ghost predicate AlmostLeft(c: Cache, t: int, b: int, k: Key, data: Block) {
    && Inv(c) && IsBuf(c, b) && 0 <= t && c.ghost_.refs[b] == multiset{t} && c.bufs[b].refcnt == 1 && c.bufs[b].holder == NOBODY
    && KeyOf(c.bufs[b]) == k && c.bufs[b].valid && c.bufs[b].data == data && k.0 != 0
    && k in c.disk && c.disk[k] != data && k in c.ghost_.latest && c.ghost_.latest[k] == data
    && forall x :: 0 <= x < |c.bufs| && x != b ==> c.bufs[x].refcnt != 0
  }

  lemma Changed(c: Cache, t: int, b: int, k: Key, data: Block)
    requires AtWork(c, t, b, k) && c.disk[k] != data
    ensures Enabled(c, Modify(t, b, data)) && Enabled(After(c, Modify(t, b, data)), Unlock(t, b))
    ensures var d := After(After(c, Modify(t, b, data)), Unlock(t, b));
            AlmostLeft(d, t, b, k, data) && d.disk == c.disk && |d.bufs| == |c.bufs| &&
            forall x :: 0 <= x < |c.bufs| && x != b ==> d.bufs[x] == c.bufs[x]
  {
    HeldByOwner(c, t, b);
    BufferMachine.StepKept(c, Modify(t, b, data));
    var c1 := After(c, Modify(t, b, data));
    BufferMachine.StepKept(c1, Unlock(t, b));
    hide Inv;
  }

  lemma Released(c: Cache, t: int, b: int, k: Key, data: Block)
    requires AlmostLeft(c, t, b, k, data)
    ensures Enabled(c, Drop(t, b)) && !Careful(c, Drop(t, b))
    ensures var d := After(c, Drop(t, b));
            LeftBehind(d, b, k, data) && d.disk == c.disk && |d.bufs| == |c.bufs| && forall x :: 0 <= x < |c.bufs| ==> KeyOf(d.bufs[x]) == KeyOf(c.bufs[x])
  {
    assert multiset{t} - multiset{t} == multiset{};
    BufferMachine.StepKept(c, Drop(t, b));
    hide Inv, ToFront;
  }

  lemma Three(c: Cache, r: Step, s: Step, u: Step)
    requires Enabled(c, r) && Enabled(After(c, r), s) && Enabled(After(After(c, r), s), u)
    ensures IsRun(c, [r, s, u]) && Run(c, [r, s, u]) == After(After(After(c, r), s), u)
    ensures CarefulRun(c, [r, s, u]) ==> Careful(After(After(c, r), s), u)
  {
    hide Enabled, Careful, After;
    var c1 := After(c, r);
    var c2 := After(c1, s);
    assert [r, s, u][1..] == [s, u] && [s, u][1..] == [u] && [u][1..] == [];
    assert IsRun(After(c2, u), []) && IsRun(c2, [u]) && Run(c2, [u]) == After(c2, u);
    assert IsRun(c1, [s, u]) && Run(c1, [s, u]) == Run(c2, [u]);
    assert CarefulRun(c, [r, s, u]) ==> CarefulRun(c1, [s, u]) && CarefulRun(c2, [u]);
  }

  /** The log's users cannot take the second step: the block is not in the header. */
  lemma NotThroughLog(c: Cache, lh: set<Key>, t: int, b: int, k: Key, data: Block)
    requires AtWork(c, t, b, k) && c.disk[k] != data && BufferLog.PinsOk(BufferLog.Shared(c, lh))
    ensures Enabled(c, Modify(t, b, data))
    ensures !BufferLog.Can(BufferLog.Shared(After(c, Modify(t, b, data)), lh), BufferLog.Own(Unlock(t, b)))
  {
    HeldByOwner(c, t, b);
    assert BufferLog.PinOk(BufferLog.Shared(c, lh), b);
    BufferLog.PinCount(c.ghost_.refs[b], t);
    hide Inv;
  }

  /** Thread u takes the buffer for another block: the contents are lost. */
  lemma Evicted(c: Cache, b: int, k: Key, data: Block, u: int, k2: Key)
    requires LeftBehind(c, b, k, data) && 0 <= u && k2.0 != 0 && k2 in c.disk && forall x :: 0 <= x < |c.bufs| ==> !Cached(c, x, k2)
    ensures Enabled(c, Recycle(u, b, k2))
    ensures var d := After(c, Recycle(u, b, k2));
            && Inv(d) && k in d.ghost_.lost && d.disk == c.disk && d.ghost_.latest == c.ghost_.latest && |d.bufs| == |c.bufs|
            && Holds(d, u, b) && d.ghost_.refs[b] == multiset{u} && d.bufs[b].refcnt == 1 && d.bufs[b].holder == NOBODY && !d.bufs[b].valid
            && KeyOf(d.bufs[b]) == k2 && (forall x :: 0 <= x < |c.bufs| && x != b ==> d.bufs[x] == c.bufs[x])
  {
    OnlyVictim(c, b);
    BufferMachine.StepKept(c, Recycle(u, b, k2));
    LostGrows(c, Recycle(u, b, k2), k);
    UniqueAt(c, b);
    hide Inv, Victim;
  }

  /** It is done with that block, and bread brings the first block back: from the disk. */
  lemma ReadAgain(c: Cache, b: int, k: Key, u: int)
    requires Inv(c) && Holds(c, u, b) && 0 <= u && c.ghost_.refs[b] == multiset{u} && c.bufs[b].refcnt == 1 && c.bufs[b].holder == NOBODY
    requires !c.bufs[b].valid && k in c.ghost_.lost && k in c.disk && k.0 != 0
    requires forall x :: 0 <= x < |c.bufs| && x != b ==> c.bufs[x].refcnt != 0
    requires forall x :: 0 <= x < |c.bufs| ==> !Cached(c, x, k)
    ensures IsRun(c, Again(u, b, k))
    ensures var d := Run(c, Again(u, b, k));
            && Locked(d, u, b) && d.bufs[b].valid && KeyOf(d.bufs[b]) == k && k in d.ghost_.lost && d.bufs[b].data == c.disk[k]
            && d.ghost_.latest == c.ghost_.latest
  {
    BufferMachine.StepKept(c, Drop(u, b));
    var c1 := After(c, Drop(u, b));
    Dropped(c, u, b, k);
    hide Inv, After, Enabled;
    Taken(c1, u, b, k);
    var c2 := After(c1, Recycle(u, b, k));
    Filled(c2, u, b, k);
    Three(c, Drop(u, b), Recycle(u, b, k), Lock(u, b));
    OneMore(c, [Drop(u, b), Recycle(u, b, k), Lock(u, b)], Fill(u, b));
    assert [Drop(u, b), Recycle(u, b, k), Lock(u, b)] + [Fill(u, b)] == Again(u, b, k);
  }

  function Again(u: int, b: int, k: Key): seq<Step> { [Drop(u, b), Recycle(u, b, k), Lock(u, b), Fill(u, b)] }

  lemma Dropped(c: Cache, u: int, b: int, k: Key)
    requires Inv(c) && Holds(c, u, b) && 0 <= u && c.ghost_.refs[b] == multiset{u} && c.bufs[b].refcnt == 1 && c.bufs[b].holder == NOBODY
    requires forall x :: 0 <= x < |c.bufs| && x != b ==> c.bufs[x].refcnt != 0
    requires forall x :: 0 <= x < |c.bufs| ==> !Cached(c, x, k)
    requires !c.bufs[b].valid
    ensures Enabled(c, Drop(u, b))
    ensures var d := After(c, Drop(u, b));
            && OnlyUnused(d, b) && d.disk == c.disk && d.ghost_.latest == c.ghost_.latest && d.ghost_.lost == c.ghost_.lost
            && d.bufs[b].holder == NOBODY && !d.bufs[b].valid && IsBuf(d, b) && forall x :: 0 <= x < |d.bufs| ==> !Cached(d, x, k)
  {
    hide Inv, ToFront;
    var d := After(c, Drop(u, b));
    forall x | 0 <= x < |d.bufs| ensures !Cached(d, x, k) {
      assert !Cached(c, x, k);
    }
  }

  lemma Filled(c: Cache, u: int, b: int, k: Key)
    requires Enabled(c, Lock(u, b)) && KeyOf(c.bufs[b]) == k && !c.bufs[b].valid && k in c.disk
    ensures Enabled(After(c, Lock(u, b)), Fill(u, b))
    ensures var d := After(After(c, Lock(u, b)), Fill(u, b));
            && Locked(d, u, b) && d.bufs[b].valid && KeyOf(d.bufs[b]) == k && d.bufs[b].data == c.disk[k]
            && d.ghost_ == c.ghost_
  {
  }

  lemma Taken(c: Cache, u: int, b: int, k: Key)
    requires Inv(c) && OnlyUnused(c, b) && !c.bufs[b].valid && c.bufs[b].holder == NOBODY && 0 <= u && k.0 != 0 && k in c.disk
    requires forall x :: 0 <= x < |c.bufs| ==> !Cached(c, x, k)
    ensures Enabled(c, Recycle(u, b, k))
    ensures var d := After(c, Recycle(u, b, k));
            && Enabled(d, Lock(u, b)) && d.disk == c.disk && d.ghost_.latest == c.ghost_.latest && d.ghost_.lost == c.ghost_.lost
            && KeyOf(d.bufs[b]) == k && !d.bufs[b].valid && Holds(d, u, b) && d.bufs[b].holder == NOBODY
  {
    OnlyVictim(c, b);
    hide Inv, Victim;
  }

  /** The whole run: the data written by the thread is gone, and the next reader sees what was there before. */
  lemma FaultLoses(c: Cache, t: int, b: int, k: Key, data: Block, u: int, k2: Key)
    requires AtWork(c, t, b, k) && c.disk[k] != data && 0 <= u
    requires k2.0 != 0 && k2 in c.disk && forall x :: 0 <= x < |c.bufs| ==> !Cached(c, x, k2)
    ensures IsRun(c, Fault(t, b, data) + [Recycle(u, b, k2)] + Again(u, b, k))
    ensures var d := Run(c, Fault(t, b, data) + [Recycle(u, b, k2)] + Again(u, b, k));
            && Locked(d, u, b) && d.bufs[b].valid && KeyOf(d.bufs[b]) == k && k in d.ghost_.lost
            && k in d.ghost_.latest && d.ghost_.latest[k] == data && d.bufs[b].data == c.disk[k] != data
  {
    hide Fault, Again;
    FaultLeaves(c, t, b, k, data);
    var c1 := Run(c, Fault(t, b, data));
    SameKeys(c, c1, b, k2);
    Evicted(c1, b, k, data, u, k2);
    OneMore(c, Fault(t, b, data), Recycle(u, b, k2));
    var c2 := After(c1, Recycle(u, b, k2));
    KeyGone(c1, c2, b, k, k2);
    ReadAgain(c2, b, k, u);
    hide Inv, After, Enabled, Run;
    Concat(c, Fault(t, b, data) + [Recycle(u, b, k2)], Again(u, b, k));
  }

  lemma SameKeys(c: Cache, d: Cache, b: int, k: Key)
    requires |d.bufs| == |c.bufs| && 0 <= b < |c.bufs| && KeyOf(d.bufs[b]) == KeyOf(c.bufs[b])
    requires forall x :: 0 <= x < |c.bufs| && x != b ==> KeyOf(d.bufs[x]) == KeyOf(c.bufs[x])
    requires forall x :: 0 <= x < |c.bufs| ==> !Cached(c, x, k)
    ensures forall x :: 0 <= x < |d.bufs| ==> !Cached(d, x, k)
  {
    forall x | 0 <= x < |d.bufs| ensures !Cached(d, x, k) {
      assert !Cached(c, x, k);
    }
  }

  lemma KeyGone(c: Cache, d: Cache, b: int, k: Key, k2: Key)
    requires Inv(c) && 0 <= b < |c.bufs| == |d.bufs| && KeyOf(c.bufs[b]) == k && k.0 != 0 && KeyOf(d.bufs[b]) == k2 && !Cached(c, b, k2)
    requires forall x :: 0 <= x < |c.bufs| && x != b ==> d.bufs[x] == c.bufs[x]
    ensures forall x :: 0 <= x < |d.bufs| ==> !Cached(d, x, k)
  {
    UniqueAt(c, b);
    hide Inv;
    forall x | 0 <= x < |d.bufs| ensures !Cached(d, x, k) {
      assert !Cached(c, b, k2);
    }
  }

  lemma {:induction false} Concat(c: Cache, xs: seq<Step>, ys: seq<Step>)
    requires IsRun(c, xs) && IsRun(Run(c, xs), ys)
    ensures IsRun(c, xs + ys) && Run(c, xs + ys) == Run(Run(c, xs), ys)
    decreases |xs|
  {
    hide Enabled, After;
    if xs == [] {
      assert xs + ys == ys;
    } else {
      Concat(After(c, xs[0]), xs[1..], ys);
      assert (xs + ys)[1..] == xs[1..] + ys;
    }
  }

  // ----- From the empty cache -----

  function Unused(c: Cache): set<int> { set b | 0 <= b < |c.bufs| && c.bufs[b].refcnt == 0 }

  lemma {:induction false} LastUnused(c: Cache, p: int) returns (b: int)
    requires Inv(c) && 0 <= p <= |c.lru| && (forall q :: p <= q < |c.lru| && IsBuf(c, c.lru[q]) ==> c.bufs[c.lru[q]].refcnt != 0)
    requires exists q :: 0 <= q < p && IsBuf(c, c.lru[q]) && c.bufs[c.lru[q]].refcnt == 0
    ensures Victim(c, b)
    decreases p
  {
    if IsBuf(c, c.lru[p - 1]) && c.bufs[c.lru[p - 1]].refcnt == 0 {
      b := c.lru[p - 1];
    } else {
      b := LastUnused(c, p - 1);
    }
  }

  lemma SomeVictim(c: Cache) returns (b: int)
    requires Inv(c) && Unused(c) != {}
    ensures Victim(c, b)
  {
    var x := Pick(Unused(c));
    assert Sizes(c) && x in c.lru;
    var q :| 0 <= q < |c.lru| && c.lru[q] == x;
    hide BufOk, Unique, DiskOk, Falling;
    b := LastUnused(c, |c.lru|);
  }

  lemma Pick<T>(s: set<T>) returns (x: T)
    requires s != {}
    ensures x in s
  {
    x :| x in s;
  }

  /** The keys are those of different blocks, which no buffer holds. */
  ghost predicate NewKeys(c: Cache, keys: seq<Key>) {
    && (forall i, j :: 0 <= i < j < |keys| ==> keys[i] != keys[j])
    && forall i :: 0 <= i < |keys| ==> keys[i].0 != 0 && keys[i] in c.disk && !Somewhere(c, keys[i])
  }

  ghost predicate Somewhere(c: Cache, k: Key) { exists x :: 0 <= x < |c.bufs| && Cached(c, x, k) }

  lemma TakeOne(c: Cache, b: int, t: int, k: Key)
    requires Inv(c) && Victim(c, b) && 0 <= t && k.0 != 0 && k in c.disk && !Somewhere(c, k)
    ensures Enabled(c, Recycle(t, b, k))
    ensures var d := After(c, Recycle(t, b, k));
            && Inv(d) && d.disk == c.disk && |d.bufs| == |c.bufs| && Unused(d) == Unused(c) - {b} && b in Unused(c)
            && KeyOf(d.bufs[b]) == k && d.ghost_.refs[b] == multiset{t} && d.bufs[b].refcnt == 1 && !d.bufs[b].valid && IsBuf(d, b)
            && d.bufs[b].holder == NOBODY && forall l :: l != k && !Somewhere(c, l) ==> !Somewhere(d, l)
  {
    assert forall x :: 0 <= x < |c.bufs| ==> !Cached(c, x, k);
    BufferMachine.StepKept(c, Recycle(t, b, k));
    assert BufOk(c, b);
    hide Inv, Clean;
    var d := After(c, Recycle(t, b, k));
    hide Victim;
    forall l | l != k && !Somewhere(c, l) ensures !Somewhere(d, l) {
      forall x | 0 <= x < |d.bufs| ensures !Cached(d, x, l) {
        assert !Cached(c, x, l);
      }
    }
  }

  /** Thread t takes one buffer for each key. */
  lemma {:induction false} Crowd(c: Cache, t: int, keys: seq<Key>) returns (steps: seq<Step>)
    requires Inv(c) && 0 <= t && NewKeys(c, keys) && |keys| <= |Unused(c)|
    ensures IsRun(c, steps)
    ensures var d := Run(c, steps);
            Inv(d) && d.disk == c.disk && |d.bufs| == |c.bufs| && |Unused(d)| == |Unused(c)| - |keys|
            && forall l :: l !in keys && !Somewhere(c, l) ==> !Somewhere(d, l)
    decreases |keys|
  {
    if keys == [] {
      steps := [];
    } else {
      var b := SomeVictim(c);
      TakeOne(c, b, t, keys[0]);
      var s := Recycle(t, b, keys[0]);
      var d := After(c, s);
      assert NewKeys(d, keys[1..]);
      hide Inv, Enabled, After, Victim;
      var rest := Crowd(d, t, keys[1..]);
      steps := [s] + rest;
      assert steps[1..] == rest;
    }
  }

  /** The last unused buffer is taken, locked and filled. */
  lemma LastOne(c: Cache, t: int, k: Key) returns (b: int)
    requires Inv(c) && 0 <= t && |Unused(c)| == 1 && k.0 != 0 && k in c.disk && !Somewhere(c, k)
    ensures IsRun(c, [Recycle(t, b, k), Lock(t, b), Fill(t, b)])
    ensures var d := Run(c, [Recycle(t, b, k), Lock(t, b), Fill(t, b)]);
            AtWork(d, t, b, k) && d.disk == c.disk && |d.bufs| == |c.bufs| && forall l :: l != k && !Somewhere(c, l) ==> !Somewhere(d, l)
  {
    b := SomeVictim(c);
    TakeOne(c, b, t, k);
    var c1 := After(c, Recycle(t, b, k));
    assert |Unused(c) - {b}| == 0;
    hide Inv, Victim, After, Enabled, AtWork, Unused;
    ReadFirst(c1, t, b, k);
    Three(c, Recycle(t, b, k), Lock(t, b), Fill(t, b));
  }

  lemma ReadFirst(c: Cache, t: int, b: int, k: Key)
    requires Inv(c) && IsBuf(c, b) && 0 <= t && c.ghost_.refs[b] == multiset{t} && c.bufs[b].refcnt == 1 && c.bufs[b].holder == NOBODY
    requires !c.bufs[b].valid && KeyOf(c.bufs[b]) == k && k in c.disk && k.0 != 0 && Unused(c) == {}
    ensures Enabled(c, Lock(t, b)) && Enabled(After(c, Lock(t, b)), Fill(t, b))
    ensures var d := After(After(c, Lock(t, b)), Fill(t, b));
            AtWork(d, t, b, k) && d.disk == c.disk && |d.bufs| == |c.bufs| && forall l :: !Somewhere(c, l) ==> !Somewhere(d, l)
  {
    forall x | 0 <= x < |c.bufs| ensures c.bufs[x].refcnt != 0 {
      assert x !in Unused(c);
    }
    Filled(c, t, b, k);
    BufferMachine.StepKept(c, Lock(t, b));
    var c1 := After(c, Lock(t, b));
    BufferMachine.StepKept(c1, Fill(t, b));
    hide Inv;
    var d := After(c1, Fill(t, b));
    forall l | !Somewhere(c, l) ensures !Somewhere(d, l) {
      forall x | 0 <= x < |d.bufs| ensures !Cached(d, x, l) {
        assert !Cached(c, x, l);
      }
    }
  }

  /** From the empty cache of any number of buffers: all but one are taken, the last one for block k; its new contents
      are left behind and lost, and thread u reads the old ones. */
  lemma FaultFromBoot(c: Cache, t: int, u: int, keys: seq<Key>, k: Key, k2: Key, data: Block) returns (steps: seq<Step>, b: int)
    requires Booted(c) && 0 <= t && 0 <= u && |keys| + 1 == |c.bufs| && k != k2 && k !in keys && k2 !in keys
    requires forall i, j :: 0 <= i < j < |keys| ==> keys[i] != keys[j]
    requires forall l :: l in keys + [k, k2] ==> l.0 != 0 && l in c.disk
    requires c.disk[k] != data
    ensures IsRun(c, steps)
    ensures var d := Run(c, steps);
            && Locked(d, u, b) && d.bufs[b].valid && KeyOf(d.bufs[b]) == k && k in d.ghost_.lost
            && k in d.ghost_.latest && d.ghost_.latest[k] == data && d.bufs[b].data == c.disk[k] != data
  {
    BootedInv(c);
    assert k in keys + [k, k2] && k2 in keys + [k, k2];
    BootedEmpty(c);
    assert forall i :: 0 <= i < |keys| ==> keys[i] in keys + [k, k2];
    var crowd := Crowd(c, t, keys);
    var c1 := Run(c, crowd);
    hide Inv, Booted, Enabled, After, Run, Victim;
    b := LastOne(c1, t, k);
    var take := [Recycle(t, b, k), Lock(t, b), Fill(t, b)];
    Concat(c, crowd, take);
    var c2 := Run(c1, take);
    assert forall x :: 0 <= x < |c2.bufs| ==> !Cached(c2, x, k2);
    FaultLoses(c2, t, b, k, data, u, k2);
    var fault := Fault(t, b, data) + [Recycle(u, b, k2)] + Again(u, b, k);
    Concat(c, crowd + take, fault);
    steps := crowd + take + fault;
  }

  lemma BootedEmpty(c: Cache)
    requires Booted(c)
    ensures |Unused(c)| == |c.bufs| && forall k: Key :: k.0 != 0 ==> !Somewhere(c, k)
  {
    assert Unused(c) == Range(|c.bufs|);
    hide Perm, Falling;
  }

  function Range(n: nat): (r: set<int>)
    ensures |r| == n && forall b :: b in r <==> 0 <= b < n
  {
    if n == 0 then {} else Range(n - 1) + {n - 1}
  }
}
