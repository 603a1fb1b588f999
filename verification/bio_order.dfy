/** What the list, the references and the contents of the buffer cache are, told by the steps of a run alone. */
module BufferOrder {
  import opened BufferMachine

  // ----- The list is in order of the last release -----

  /** brelse gives up the last reference to b. */
  predicate Releases(c: Cache, s: Step, b: int) {
    s.Drop? && s.b == b && 0 <= b < |c.bufs| && c.bufs[b].refcnt == 1
  }

  /** The place in the run of the last release of b, or -1 when there is none. */
  ghost function LastRelease(c: Cache, steps: seq<Step>, b: int): (i: int)
    requires IsRun(c, steps)
    ensures -1 <= i < |steps|
    decreases |steps|
  {
    if steps == [] then -1
    else
      var later := LastRelease(After(c, steps[0]), steps[1..], b);
      if later >= 0 then later + 1 else if Releases(c, steps[0], b) then 0 else -1
  }

  lemma StampStep(c: Cache, s: Step)
    requires Inv(c) && Enabled(c, s)
    ensures var d := After(c, s);
            && |d.bufs| == |c.bufs| && Sizes(c) && Sizes(d) && c.ghost_.clock <= d.ghost_.clock
            && forall x :: 0 <= x < |c.bufs| ==>
                 && d.ghost_.stamp[x] == (if Releases(c, s, x) then c.ghost_.clock else c.ghost_.stamp[x])
                 && c.ghost_.stamp[x] < c.ghost_.clock && d.ghost_.stamp[x] < d.ghost_.clock
  {
    assert IsBuf(c, s.b);
    forall x | 0 <= x < |c.bufs| ensures c.ghost_.stamp[x] < c.ghost_.clock {
      assert BufOk(c, x);
    }
    hide Inv, Clean, ToFront, Victim;
  }

  /** Stamps are the order of the last releases; a buffer that is not released keeps its own. */
  lemma {:induction false} StampsByRelease(c: Cache, steps: seq<Step>, x: int)
    requires Inv(c) && IsRun(c, steps) && 0 <= x < |c.bufs|
    ensures var d, i := Run(c, steps), LastRelease(c, steps, x);
            && |d.bufs| == |c.bufs| && Sizes(c) && Sizes(d)
            && if i < 0 then d.ghost_.stamp[x] == c.ghost_.stamp[x] < c.ghost_.clock else c.ghost_.clock <= d.ghost_.stamp[x]
    decreases |steps|
  {
    if steps == [] {
      assert BufOk(c, x);
      hide Perm, Falling, Unique, DiskOk;
    } else {
      StepKept(c, steps[0]);
      StampStep(c, steps[0]);
      hide Inv, After, Enabled, Releases;
      StampsByRelease(After(c, steps[0]), steps[1..], x);
    }
  }

  lemma {:induction false} LaterStamp(c: Cache, steps: seq<Step>, x: int, y: int)
    requires Inv(c) && IsRun(c, steps) && 0 <= x < |c.bufs| && 0 <= y < |c.bufs|
    requires LastRelease(c, steps, x) < LastRelease(c, steps, y)
    ensures |Run(c, steps).bufs| == |c.bufs| && Sizes(Run(c, steps)) && Run(c, steps).ghost_.stamp[x] < Run(c, steps).ghost_.stamp[y]
    decreases |steps|
  {
    var c1 := After(c, steps[0]);
    StepKept(c, steps[0]);
    StampStep(c, steps[0]);
    hide Inv, After, Enabled, Releases;
    StampsByRelease(c1, steps[1..], x);
    StampsByRelease(c1, steps[1..], y);
    if LastRelease(c1, steps[1..], x) < LastRelease(c1, steps[1..], y) {
      LaterStamp(c1, steps[1..], x, y);
    }
  }

  /** No two buffers are released by one step. */
  lemma {:induction false} ReleasedOnce(c: Cache, steps: seq<Step>, x: int, y: int)
    requires IsRun(c, steps) && LastRelease(c, steps, x) == LastRelease(c, steps, y) >= 0
    ensures x == y
    decreases |steps|
  {
    if LastRelease(After(c, steps[0]), steps[1..], x) >= 0 {
      ReleasedOnce(After(c, steps[0]), steps[1..], x, y);
    }
  }

  /** x comes before y in the list. */
  ghost predicate Before(lru: seq<int>, x: int, y: int) { exists p, q :: 0 <= p < q < |lru| && lru[p] == x && lru[q] == y }

  lemma BeforeByStamp(c: Cache, x: int, y: int)
    requires Inv(c) && 0 <= x < |c.bufs| && 0 <= y < |c.bufs| && x != y
    ensures Sizes(c) && (Before(c.lru, x, y) <==> c.ghost_.stamp[y] < c.ghost_.stamp[x])
  {
    hide BufOk, Unique, DiskOk;
    assert x in c.lru && y in c.lru;
    var p :| 0 <= p < |c.lru| && c.lru[p] == x;
    var q :| 0 <= q < |c.lru| && c.lru[q] == y;
    assert p < q ==> Before(c.lru, x, y);
  }

  /** At any point of any run: of two buffers, the one released later is nearer to the front; those never released
      are behind all others, in the order in which they were. */
  lemma ListByRelease(c: Cache, steps: seq<Step>, x: int, y: int)
    requires Inv(c) && IsRun(c, steps) && 0 <= x < |c.bufs| && 0 <= y < |c.bufs| && x != y
    ensures var i, j := LastRelease(c, steps, x), LastRelease(c, steps, y);
            Before(Run(c, steps).lru, x, y) <==> if i == j then Before(c.lru, x, y) else j < i
  {
    var d, i, j := Run(c, steps), LastRelease(c, steps, x), LastRelease(c, steps, y);
    RunKept(c, steps);
    StampsByRelease(c, steps, x);
    StampsByRelease(c, steps, y);
    BeforeByStamp(c, x, y);
    BeforeByStamp(d, x, y);
    hide Inv, Before, Run, IsRun, LastRelease;
    if i < j {
      LaterStamp(c, steps, x, y);
    } else if j < i {
      LaterStamp(c, steps, y, x);
    } else if i >= 0 {
      ReleasedOnce(c, steps, x, y);
    }
  }

  /** bget recycles the unused buffer whose last release lies furthest back in the run. */
  lemma VictimByRelease(c: Cache, steps: seq<Step>, b: int, x: int)
    requires Booted(c) && IsRun(c, steps) && Victim(Run(c, steps), b)
    requires 0 <= x < |c.bufs| && x != b && |Run(c, steps).bufs| == |c.bufs| && Run(c, steps).bufs[x].refcnt == 0
    ensures LastRelease(c, steps, x) >= 0 ==> LastRelease(c, steps, b) < LastRelease(c, steps, x)
    ensures LastRelease(c, steps, x) < 0 ==> LastRelease(c, steps, b) < 0 && Before(c.lru, x, b)
  {
    var d := Run(c, steps);
    BootedInv(c);
    RunKept(c, steps);
    assert IsBuf(d, b);
    VictimIsOldest(d, b, x);
    BeforeByStamp(d, x, b);
    hide Inv, Before, Booted, Victim, Run, IsRun, LastRelease;
    ListByRelease(c, steps, x, b);
    if LastRelease(c, steps, x) == LastRelease(c, steps, b) >= 0 {
      ReleasedOnce(c, steps, x, b);
    }
  }

  // ----- References are what was taken less what was given back -----

  /** What the step does to the references that t holds to b; those of bpin are held by PIN. */
  function Change(s: Step, t: int, b: int): int {
    if s.b != b then 0
    else match s
      case Hit(u, _, _) => if u == t then 1 else 0
      case Recycle(u, _, _) => if u == t then 1 else 0
      case Drop(u, _) => if u == t then -1 else 0
      case Pin(_, _) => if t == PIN then 1 else 0
      case Unpin(_, _) => if t == PIN then -1 else 0
      case _ => 0
  }

  function Balance(steps: seq<Step>, t: int, b: int): int
    decreases |steps|
  {
    if steps == [] then 0 else Change(steps[0], t, b) + Balance(steps[1..], t, b)
  }

  lemma RefStep(c: Cache, s: Step, t: int, b: int)
    requires Inv(c) && Enabled(c, s) && 0 <= b < |c.bufs|
    ensures var d := After(c, s); |d.bufs| == |c.bufs| && Sizes(c) && Sizes(d) && d.ghost_.refs[b][t] == c.ghost_.refs[b][t] + Change(s, t, b)
  {
    hide Inv, Enabled, After;
    SizesKept(c, s);
    if s.b == b {
      RefHere(c, s, t);
    } else {
      OthersStay(c, s, b);
    }
  }

  lemma SizesKept(c: Cache, s: Step)
    requires Inv(c) && Enabled(c, s)
    ensures Sizes(c) && Sizes(After(c, s)) && |After(c, s).bufs| == |c.bufs|
  {
    assert IsBuf(c, s.b);
    hide Inv, Clean, ToFront, Victim;
  }

  lemma RefHere(c: Cache, s: Step, t: int)
    requires Inv(c) && Enabled(c, s) && 0 <= s.b < |c.bufs| && Sizes(c) && Sizes(After(c, s)) && |After(c, s).bufs| == |c.bufs|
    ensures After(c, s).ghost_.refs[s.b][t] == c.ghost_.refs[s.b][t] + Change(s, t, s.b)
  {
    var r := c.ghost_.refs[s.b];
    if s.Recycle? {
      Unused(c, s.b);
    }
    OneRef(r, if s.Hit? || s.Recycle? || s.Drop? then s.t else PIN, t);
    hide Inv, Clean, ToFront;
  }

  lemma Unused(c: Cache, b: int)
    requires Inv(c) && Victim(c, b)
    ensures c.ghost_.refs[b] == multiset{}
  {
    assert BufOk(c, b);
    hide Perm, Falling, DiskOk, Unique;
  }

  lemma OneRef(r: multiset<int>, u: int, t: int)
    ensures (r + multiset{u})[t] == r[t] + (if u == t then 1 else 0) && multiset{u}[t] == if u == t then 1 else 0
    ensures u in r ==> (r - multiset{u})[t] == r[t] - if u == t then 1 else 0
  {
  }

  /** bget and bpin take one reference, brelse and bunpin give one back, and the count is their sum. */
  lemma {:induction false} RefsCounted(c: Cache, steps: seq<Step>, t: int, b: int)
    requires Inv(c) && IsRun(c, steps) && 0 <= b < |c.bufs|
    ensures var d := Run(c, steps);
            && |d.bufs| == |c.bufs| && Sizes(c) && Sizes(d) && d.bufs[b].refcnt == |d.ghost_.refs[b]|
            && d.ghost_.refs[b][t] == c.ghost_.refs[b][t] + Balance(steps, t, b)
    decreases |steps|
  {
    if steps == [] {
      assert BufOk(c, b);
      hide Perm, Falling, Unique, DiskOk;
    } else {
      StepKept(c, steps[0]);
      RefStep(c, steps[0], t, b);
      hide Inv, After, Enabled, Change;
      RefsCounted(After(c, steps[0]), steps[1..], t, b);
    }
  }

  // ----- Contents are what was written last -----

  /** The data last given to block k in the run, or `was`. */
  ghost function LastWrite(c: Cache, steps: seq<Step>, k: Key, was: Block): Block
    requires IsRun(c, steps)
    decreases |steps|
  {
    if steps == [] then was
    else
      var s := steps[0];
      LastWrite(After(c, s), steps[1..], k, if s.Modify? && Writes(c, s, k) then s.data else was)
  }

  predicate Writes(c: Cache, s: Step, k: Key) { 0 <= s.b < |c.bufs| && KeyOf(c.bufs[s.b]) == k }

  /** What bwrite last wrote to block k in the run, or `was`. */
  ghost function LastOut(c: Cache, steps: seq<Step>, k: Key, was: Block): Block
    requires IsRun(c, steps)
    decreases |steps|
  {
    if steps == [] then was
    else
      var s := steps[0];
      LastOut(After(c, s), steps[1..], k, if s.Bwrite? && Writes(c, s, k) then c.bufs[s.b].data else was)
  }

  lemma WriteStep(c: Cache, s: Step, k: Key)
    requires Inv(c) && Enabled(c, s) && k in c.disk
    ensures var d := After(c, s);
            && k in d.disk && k in c.ghost_.latest && k in d.ghost_.latest
            && d.ghost_.latest[k] == (if s.Modify? && Writes(c, s, k) then s.data else c.ghost_.latest[k])
            && d.disk[k] == if s.Bwrite? && Writes(c, s, k) then c.bufs[s.b].data else c.disk[k]
  {
    assert k in c.ghost_.latest;
    hide Inv, Clean, ToFront, Victim;
  }

  lemma {:induction false} WritesKept(c: Cache, steps: seq<Step>, k: Key)
    requires Inv(c) && IsRun(c, steps) && k in c.disk
    ensures var d := Run(c, steps);
            && k in d.disk && k in c.ghost_.latest && k in d.ghost_.latest
            && d.ghost_.latest[k] == LastWrite(c, steps, k, c.ghost_.latest[k]) && d.disk[k] == LastOut(c, steps, k, c.disk[k])
    decreases |steps|
  {
    if steps == [] {
      hide Perm, Falling, Unique, BufOk;
    } else {
      StepKept(c, steps[0]);
      WriteStep(c, steps[0], k);
      hide Inv, After, Enabled, Writes;
      WritesKept(After(c, steps[0]), steps[1..], k);
    }
  }

  /** bread: whoever has a filled buffer locked sees what was last written to the block in the run, or what was on
      the disk at its start, exactly when that was not lost; otherwise what bwrite last put on the disk. */
  lemma ReadsLastWrite(c: Cache, steps: seq<Step>, t: int, b: int)
    requires Booted(c) && IsRun(c, steps)
    requires var d := Run(c, steps); Locked(d, t, b) && d.bufs[b].valid
    ensures var d := Run(c, steps); var k := KeyOf(d.bufs[b]);
            && k in c.disk
            && d.bufs[b].data == (if k in d.ghost_.lost then LastOut(c, steps, k, c.disk[k]) else LastWrite(c, steps, k, c.disk[k]))
            && (k in d.ghost_.lost ==> LastOut(c, steps, k, c.disk[k]) != LastWrite(c, steps, k, c.disk[k]))
  {
    var d := Run(c, steps);
    var k := KeyOf(d.bufs[b]);
    BootedInv(c);
    RunKept(c, steps);
    HeldByOwner(d, t, b);
    UsedDev(d, t, b);
    SameDisk(c, steps, k);
    WritesKept(c, steps, k);
    InvDisk(d);
    assert BufOk(d, b) && LostHere(d, k);
    hide Inv, Run, IsRun, LastOut, LastWrite;
  }

  lemma {:induction false} SameDisk(c: Cache, steps: seq<Step>, k: Key)
    requires Inv(c) && IsRun(c, steps)
    ensures k in Run(c, steps).disk <==> k in c.disk
    decreases |steps|
  {
    if steps != [] {
      StepKept(c, steps[0]);
      DiskStep(c, steps[0], k);
      hide Inv, After, Enabled;
      SameDisk(After(c, steps[0]), steps[1..], k);
    }
  }

  lemma DiskStep(c: Cache, s: Step, k: Key)
    requires Inv(c) && Enabled(c, s)
    ensures k in After(c, s).disk <==> k in c.disk
  {
    if s.Bwrite? {
      HeldByOwner(c, s.t, s.b);
    }
    hide Inv, Clean, ToFront, Victim;
  }
}
