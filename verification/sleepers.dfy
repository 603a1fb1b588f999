/** sleep and wakeup of kernel/proc.c, as seen from one channel: sleep gives up the lock and goes to sleep in
    one step, because wakeup needs the sleeper's own lock; a woken thread takes the lock again later. */
module Sleepers {
  /** Not in sleep, asleep, or woken and about to take the lock again. */
  datatype Mood = Awake | Asleep | Woken

  function WokenMood(m: Mood): Mood { if m == Asleep then Woken else m }

  /** wakeup on the semaphore. */
  function WakeAll(mood: seq<Mood>): (r: seq<Mood>)
    ensures |r| == |mood| && forall t :: 0 <= t < |mood| ==> r[t] == WokenMood(mood[t])
  {
    if mood == [] then [] else WakeAll(mood[..|mood| - 1]) + [WokenMood(mood[|mood| - 1])]
  }
}

/** kernel/sleeplock.c. */
module SleepLock {
  import opened Sleepers

  /** pid is the holder's, 0 for nobody; thread t has pid t + 1. */
  datatype Lock = Lock(locked: bool, pid: int, mood: seq<Mood>)

  /** Acquire is acquiresleep up to its return or its first sleep, Resume from a wakeup on. */
  datatype Step = Acquire(t: int) | Resume(t: int) | Release(t: int) | Disturb(t: int)

  predicate IsThread(l: Lock, t: int) { 0 <= t < |l.mood| }

  /** holdingsleep. */
  predicate Holding(l: Lock, t: int) { l.locked && l.pid == t + 1 }

  /** Only the holder releases; a thread in the middle of acquiresleep starts nothing else. */
  predicate Enabled(l: Lock, s: Step) {
    IsThread(l, s.t) &&
    match s
    case Acquire(t) => l.mood[t] == Awake && !Holding(l, t)
    case Resume(t) => l.mood[t] == Woken
    case Release(t) => l.mood[t] == Awake && Holding(l, t)
    case Disturb(t) => l.mood[t] == Asleep
  }

  /** The loop of acquiresleep by thread t. */
  function LoopTo(l: Lock, t: int): Lock
    requires IsThread(l, t)
  {
    if l.locked then l.(mood := l.mood[t := Asleep]) else Lock(true, t + 1, l.mood[t := Awake])
  }

  function After(l: Lock, s: Step): Lock
    requires Enabled(l, s)
  {
    match s
    case Acquire(t) => LoopTo(l, t)
    case Resume(t) => LoopTo(l, t)
    case Release(_) => Lock(false, 0, WakeAll(l.mood))
    case Disturb(t) => l.(mood := l.mood[t := Woken])
  }

  /** A free lock has no sleeper, and the holder is a thread out of acquiresleep. */
  ghost predicate Inv(l: Lock) {
    && (!l.locked ==> l.pid == 0 && forall t :: 0 <= t < |l.mood| ==> l.mood[t] != Asleep)
    && (l.locked ==> IsThread(l, l.pid - 1) && l.mood[l.pid - 1] == Awake)
  }

  predicate IsRun(l: Lock, ss: seq<Step>)
    decreases |ss|
  {
    ss == [] || (Enabled(l, ss[0]) && IsRun(After(l, ss[0]), ss[1..]))
  }

  function Run(l: Lock, ss: seq<Step>): Lock
    requires IsRun(l, ss)
    decreases |ss|
  {
    if ss == [] then l else Run(After(l, ss[0]), ss[1..])
  }

  /** Mutual exclusion and no lost wakeup, in every run: the lock passes from one thread to another only through
      a release, and nobody sleeps while it is free. */
  lemma {:induction false} RunKept(l: Lock, ss: seq<Step>, t: int)
    requires Inv(l) && IsRun(l, ss)
    ensures Inv(Run(l, ss)) && |Run(l, ss).mood| == |l.mood|
    ensures Holding(l, t) && (forall i :: 0 <= i < |ss| ==> ss[i] != Release(t)) ==> Holding(Run(l, ss), t)
    decreases |ss|
  {
    if ss != [] {
      var next := After(l, ss[0]);
      assert Holding(l, t) && ss[0] != Release(t) ==> Holding(next, t);
      RunKept(next, ss[1..], t);
    }
  }

  /** acquiresleep gets the lock exactly when it is free and sleeps otherwise; releasesleep frees it and wakes all. */
  lemma StepMeans(l: Lock, s: Step)
    requires Inv(l) && Enabled(l, s)
    ensures s.Acquire? || s.Resume? ==>
      && (Holding(After(l, s), s.t) <==> !l.locked) && (After(l, s).mood[s.t] == Asleep <==> l.locked)
      && forall u :: u != s.t && l.locked ==> (Holding(After(l, s), u) <==> Holding(l, u))
    ensures s.Release? ==> !After(l, s).locked && |After(l, s).mood| == |l.mood|
    ensures s.Release? ==> forall u :: 0 <= u < |l.mood| ==> After(l, s).mood[u] == if l.mood[u] == Asleep then Woken else l.mood[u]
  {
  }
}
