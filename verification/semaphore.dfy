/** kernel/semaphore.c on top of sleep and wakeup.  Each step is what one thread does while it has the
    semaphore's lock, so runs are all interleavings of all threads. */
module Semaphore {
  import opened Sleepers

  const MAX_SEM: int := 260
  const CLOSED: int := -1

  datatype Sem = Sem(inUse: bool, value: int, mood: seq<Mood>)

  /** How sem_down ends for now. */
  datatype Outcome = Got | Slept | Refused

  datatype Step = Open(v: int) | Close | Up | Down(t: int) | Resume(t: int) | Disturb(t: int)

  predicate IsThread(s: Sem, t: int) { 0 <= t < |s.mood| }

  function OpenTo(s: Sem, v: int): Sem { if s.inUse || v < 0 then s else s.(value := v, inUse := true) }

  function CloseTo(s: Sem): Sem {
    if !s.inUse then s else s.(inUse := false, value := CLOSED, mood := WakeAll(s.mood))
  }

  function UpTo(s: Sem): Sem {
    if !s.inUse then s else s.(mood := if s.value == 0 then WakeAll(s.mood) else s.mood, value := s.value + 1)
  }

  /** The test of the loop of sem_down by thread t, and what follows it. */
  function LoopTo(s: Sem, t: int): (Sem, Outcome)
    requires IsThread(s, t)
  {
    if s.value == 0 then (s.(mood := s.mood[t := Asleep]), Slept)
    else (s.(mood := s.mood[t := Awake], value := s.value - 1), Got)
  }

  /** sem_down up to its end or its first sleep. */
  function DownTo(s: Sem, t: int): (Sem, Outcome)
    requires IsThread(s, t)
  {
    if !s.inUse then (s, Refused) else LoopTo(s, t)
  }

  /** From a wakeup to the end or the next sleep. */
  function ResumeTo(s: Sem, t: int): (Sem, Outcome)
    requires IsThread(s, t)
  {
    if s.value == CLOSED then (s.(mood := s.mood[t := Awake]), Refused) else LoopTo(s, t)
  }

  predicate Enabled(s: Sem, e: Step) {
    match e
    case Down(t) => IsThread(s, t) && s.mood[t] == Awake
    case Resume(t) => IsThread(s, t) && s.mood[t] == Woken
    case Disturb(t) => IsThread(s, t) && s.mood[t] == Asleep
    case _ => true
  }

  /** Disturb is kill: it wakes a sleeper for no reason of the semaphore's. */
  function After(s: Sem, e: Step): Sem
    requires Enabled(s, e)
  {
    match e
    case Open(v) => OpenTo(s, v)
    case Close => CloseTo(s)
    case Up => UpTo(s)
    case Down(t) => DownTo(s, t).0
    case Resume(t) => ResumeTo(s, t).0
    case Disturb(t) => s.(mood := s.mood[t := Woken])
  }

  // ----- Runs -----

  predicate IsRun(s: Sem, es: seq<Step>)
    decreases |es|
  {
    es == [] || (Enabled(s, es[0]) && IsRun(After(s, es[0]), es[1..]))
  }

  function Run(s: Sem, es: seq<Step>): Sem
    requires IsRun(s, es)
    decreases |es|
  {
    if es == [] then s else Run(After(s, es[0]), es[1..])
  }

  /** What the value should be: none while closed; since the opening, its value plus ups minus completed downs. */
  function Count(s: Sem, es: seq<Step>, c: int): int
    requires IsRun(s, es)
    decreases |es|
  {
    if es == [] then c else Count(After(s, es[0]), es[1..], Tally(s, es[0], c))
  }

  function Tally(s: Sem, e: Step, c: int): int
    requires Enabled(s, e)
  {
    match e
    case Open(v) => if s.inUse || v < 0 then c else v
    case Close => if s.inUse then CLOSED else c
    case Up => if s.inUse then c + 1 else c
    case Down(t) => if DownTo(s, t).1 == Got then c - 1 else c
    case Resume(t) => if ResumeTo(s, t).1 == Got then c - 1 else c
    case Disturb(_) => c
  }

  /** Closed is -1, open is never negative, and nobody sleeps unless the value is 0. */
  ghost predicate Inv(s: Sem) {
    && (if s.inUse then s.value >= 0 else s.value == CLOSED)
    && (s.value != 0 ==> forall t :: 0 <= t < |s.mood| ==> s.mood[t] != Asleep)
  }

  lemma StepKept(s: Sem, e: Step)
    requires Inv(s) && Enabled(s, e)
    ensures Inv(After(s, e)) && |After(s, e).mood| == |s.mood|
    ensures After(s, e).value == Tally(s, e, s.value)
  {
  }

  /** After every run, also through closing and reopening while threads sleep: the value is the count, open
      semaphores are never negative, and a semaphore whose value is not 0 has no sleeper. */
  lemma {:induction false} ValueIsCount(s: Sem, es: seq<Step>)
    requires Inv(s) && IsRun(s, es)
    ensures Run(s, es).value == Count(s, es, s.value) && Inv(Run(s, es))
    decreases |es|
  {
    if es != [] {
      StepKept(s, es[0]);
      ValueIsCount(After(s, es[0]), es[1..]);
    }
  }

  /** What the call that this step makes or resumes returns: nothing yet (Slept), 1 (Got) or 0 (Refused). */
  function Returned(s: Sem, e: Step): Outcome
    requires Enabled(s, e)
  {
    match e
    case Open(v) => if s.inUse || v < 0 then Refused else Got
    case Close => if s.inUse then Got else Refused
    case Up => if s.inUse then Got else Refused
    case Down(t) => DownTo(s, t).1
    case Resume(t) => ResumeTo(s, t).1
    case Disturb(_) => Slept
  }

  /** The threads that slept are woken, or nobody is. */
  ghost predicate Woke(woken: bool, mood: seq<Mood>, mood': seq<Mood>) {
    |mood'| == |mood| && forall t :: 0 <= t < |mood| ==> mood'[t] == if woken && mood[t] == Asleep then Woken else mood[t]
  }

  /** A call returns 1 exactly when it has changed the semaphore; what changes then; and sem_down takes one, sleeps
      at 0, or is refused on a semaphore that is closed. */
  lemma ReturnedMeans(s: Sem, e: Step)
    requires Inv(s) && Enabled(s, e)
    ensures e.Open? || e.Close? || e.Up? ==> Returned(s, e) != Slept && (Returned(s, e) == Got <==> After(s, e) != s)
    ensures e.Open? ==> (Returned(s, e) == Got <==> !s.inUse && e.v >= 0) && (Returned(s, e) == Got ==> After(s, e) == Sem(true, e.v, s.mood))
    ensures e.Close? || e.Up? ==> (Returned(s, e) == Got <==> s.inUse)
    ensures e.Close? && s.inUse ==> !After(s, e).inUse && After(s, e).value == -1 && Woke(true, s.mood, After(s, e).mood)
    ensures e.Up? && s.inUse ==> After(s, e).inUse && After(s, e).value == s.value + 1 && Woke(s.value == 0, s.mood, After(s, e).mood)
    ensures e.Down? || e.Resume? ==>
              && (Returned(s, e) == Got <==> s.inUse && s.value > 0) && (Returned(s, e) == Slept <==> s.inUse && s.value == 0)
              && After(s, e).inUse == s.inUse && After(s, e).value == (if Returned(s, e) == Got then s.value - 1 else s.value)
              && After(s, e).mood == s.mood[e.t := if Returned(s, e) == Slept then Asleep else Awake]
  {
    if e.Up? && s.inUse {
      assert After(s, e).value != s.value;
    }
  }

  /** How many calls of sem_up, or of sem_down, have returned 1 in the run. */
  function Returns(s: Sem, es: seq<Step>, up: bool): nat
    requires IsRun(s, es)
    decreases |es|
  {
    if es == [] then 0
    else (if Returned(s, es[0]) == Got && (if up then es[0].Up? else es[0].Down? || es[0].Resume?) then 1 else 0)
         + Returns(After(s, es[0]), es[1..], up)
  }

  /** While a semaphore stays open, its value is the value at the start plus the ups that have returned 1 minus
      the downs that have. */
  lemma {:induction false} ValueOfReturns(s: Sem, es: seq<Step>)
    requires Inv(s) && s.inUse && IsRun(s, es) && forall i :: 0 <= i < |es| ==> es[i] != Close
    ensures Run(s, es).inUse && Run(s, es).value == s.value + Returns(s, es, true) - Returns(s, es, false) >= 0
    decreases |es|
  {
    if es != [] {
      StepKept(s, es[0]);
      ValueOfReturns(After(s, es[0]), es[1..]);
    }
  }

  // ----- The code -----

  class SemArray {
    var sems: seq<Sem>

    ghost predicate Valid()
      reads this
    {
      |sems| == MAX_SEM && forall i :: 0 <= i < |sems| ==> Inv(sems[i])
    }

    /** sem_init at boot, with room for n threads. */
    constructor (n: nat)
      ensures Valid() && forall i :: 0 <= i < MAX_SEM ==> sems[i] == Sem(false, CLOSED, seq(n, _ => Awake))
    {
      var mood := seq(n, _ => Awake);
      sems := seq(MAX_SEM, i => Sem(false, CLOSED, mood));
    }

    /** sem_open. */
    method SemOpen(sem: int, value: int) returns (r: int)
      requires Valid() && 0 <= sem < MAX_SEM
      modifies this
      ensures Valid() && sems == old(sems)[sem := After(old(sems)[sem], Open(value))]
      ensures r == if Returned(old(sems)[sem], Open(value)) == Got then 1 else 0
      ensures (r == 1 <==> !old(sems)[sem].inUse && value >= 0) && (r == 1 <==> sems != old(sems))
    {
      StepKept(sems[sem], Open(value));
      ReturnedMeans(sems[sem], Open(value));
      if sems[sem].inUse {
        return 0;
      }
      if value < 0 {
        return 0;
      }
      sems := sems[sem := sems[sem].(value := value)];
      sems := sems[sem := sems[sem].(inUse := true)];
      r := 1;
    }

    /** wakeup(&sem_array[sem]). */
    method WakeUp(sem: int)
      requires 0 <= sem < |sems|
      modifies this
      ensures sems == old(sems)[sem := old(sems)[sem].(mood := WakeAll(old(sems)[sem].mood))]
    {
      var mood := sems[sem].mood;
      var t := 0;
      while t < |mood|
        invariant 0 <= t <= |mood| == |sems[sem].mood|
        invariant forall u :: 0 <= u < |mood| ==> mood[u] == if u < t then WokenMood(sems[sem].mood[u]) else sems[sem].mood[u]
      {
        if mood[t] == Asleep {
          mood := mood[t := Woken];
        }
        t := t + 1;
      }
      assert mood == WakeAll(sems[sem].mood);
      sems := sems[sem := sems[sem].(mood := mood)];
    }

    /** sem_close. */
    method SemClose(sem: int) returns (r: int)
      requires Valid() && 0 <= sem < MAX_SEM
      modifies this
      ensures Valid() && sems == old(sems)[sem := After(old(sems)[sem], Close)] && r == if Returned(old(sems)[sem], Close) == Got then 1 else 0
      ensures (r == 1 <==> old(sems)[sem].inUse) && (r == 1 <==> sems != old(sems))
    {
      ReturnedMeans(sems[sem], Close);
      StepKept(sems[sem], Close);
      if !sems[sem].inUse {
        return 0;
      }
      sems := sems[sem := sems[sem].(inUse := false)];
      sems := sems[sem := sems[sem].(value := CLOSED)];
      WakeUp(sem);
      r := 1;
    }

    /** sem_up. */
    method SemUp(sem: int) returns (r: int)
      requires Valid() && 0 <= sem < MAX_SEM
      modifies this
      ensures Valid() && sems == old(sems)[sem := After(old(sems)[sem], Up)] && r == if Returned(old(sems)[sem], Up) == Got then 1 else 0
      ensures (r == 1 <==> old(sems)[sem].inUse) && (r == 1 <==> sems != old(sems))
    {
      ReturnedMeans(sems[sem], Up);
      StepKept(sems[sem], Up);
      if !sems[sem].inUse {
        return 0;
      }
      if sems[sem].value == 0 {
        WakeUp(sem);
      }
      sems := sems[sem := sems[sem].(value := sems[sem].value + 1)];
      r := 1;
    }

    /** sem_down by thread t, entered or resumed after a wakeup, up to its return or the next sleep. */
    method SemDown(sem: int, t: int) returns (o: Outcome)
      requires Valid() && 0 <= sem < MAX_SEM && IsThread(sems[sem], t) && sems[sem].mood[t] != Asleep
      modifies this
      ensures Valid() && o == Returned(old(sems)[sem], if old(sems)[sem].mood[t] == Awake then Down(t) else Resume(t))
      ensures sems == old(sems)[sem := After(old(sems)[sem], if old(sems)[sem].mood[t] == Awake then Down(t) else Resume(t))]
      ensures (o == Got <==> old(sems)[sem].value > 0) && (o == Slept <==> old(sems)[sem].value == 0)
      ensures sems[sem].value == old(sems)[sem].value - if o == Got then 1 else 0
    {
      ReturnedMeans(sems[sem], if sems[sem].mood[t] == Awake then Down(t) else Resume(t));
      ghost var m := sems[sem].mood;
      assert m[t := Awake][t := Asleep] == m[t := Asleep] && (m[t] == Awake ==> m[t := Awake] == m);
      if sems[sem].mood[t] == Awake {
        StepKept(sems[sem], Down(t));
        if !sems[sem].inUse {
          return Refused;
        }
      } else {
        StepKept(sems[sem], Resume(t));
        sems := sems[sem := sems[sem].(mood := sems[sem].mood[t := Awake])];
        if sems[sem].value == CLOSED {
          return Refused;
        }
      }
      if sems[sem].value == 0 {
        sems := sems[sem := sems[sem].(mood := sems[sem].mood[t := Asleep])];
        return Slept;
      }
      sems := sems[sem := sems[sem].(value := sems[sem].value - 1)];
      o := Got;
    }
  }
}
