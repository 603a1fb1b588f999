/** kernel/pipe.c: a ring of 512 bytes between two counters that wrap at 2^32, with sleeping readers and
    writers.  Each method is what one process does while it has the pipe's lock. */
module Pipe {
  import opened Sleepers

  const PIPESIZE: int := 512

  /** How a call ends for now. */
  datatype Outcome = Finished | Slept | Aborted

  /** What the pipe stands for: the bytes stored and those taken so far, and who sleeps. */
  datatype Queue = Queue(stored: seq<bv8>, taken: seq<bv8>, readopen: bool, writeopen: bool,
                         writers: seq<Mood>, readers: seq<Mood>)

  function Min(a: int, b: int): int { if a < b then a else b }

  /** Bytes in the pipe. */
  function Fill(q: Queue): int { |q.stored| - |q.taken| }

  // ----- pipewrite -----

  /** How many bytes of src go in while the lock is held: up to a full pipe, the end of the readable memory
      (`avail` bytes), or the turn of the loop, `killAt`, that finds the process killed. */
  function PutCount(q: Queue, n: int, avail: int, killAt: int): int {
    if !q.readopen then 0 else Min(Min(n, killAt), Min(avail, PIPESIZE - Fill(q)))
  }

  function PutOutcome(q: Queue, n: int, avail: int, killAt: int): Outcome {
    var k := PutCount(q, n, avail, killAt);
    if k == n then Finished
    else if !q.readopen || k == killAt then Aborted
    else if k == PIPESIZE - Fill(q) then Slept
    else Finished
  }

  /** A stretch of pipewrite by thread t, from taking the lock to giving it up.  Readers are woken unless the
      call is aborted. */
  function WriteTo(q: Queue, t: int, src: seq<bv8>, avail: int, killAt: int): Queue
    requires 0 <= t < |q.writers| && 0 <= avail && 0 <= killAt && Fill(q) <= PIPESIZE
  {
    var k := PutCount(q, |src|, avail, killAt);
    var o := PutOutcome(q, |src|, avail, killAt);
    q.(stored := q.stored + src[..k], readers := if o == Aborted then q.readers else WakeAll(q.readers),
       writers := q.writers[t := if o == Slept then Asleep else Awake])
  }

  // ----- piperead -----

  /** How many bytes come out: one more than are delivered when storing the last one fails. */
  function TakeCount(q: Queue, n: int, room: int): int { Min(n, Min(room + 1, Fill(q))) }

  function ReadOutcome(q: Queue, killed: bool): Outcome {
    if Fill(q) == 0 && q.writeopen then if killed then Aborted else Slept else Finished
  }

  /** A stretch of piperead by thread t, whose memory takes `room` bytes. */
  function ReadTo(q: Queue, t: int, n: int, room: int, killed: bool): Queue
    requires 0 <= t < |q.readers| && 0 <= n && 0 <= room && 0 <= Fill(q)
  {
    var o := ReadOutcome(q, killed);
    if o != Finished then q.(readers := q.readers[t := if o == Slept then Asleep else Awake])
    else
      var k := TakeCount(q, n, room);
      q.(taken := q.taken + q.stored[|q.taken|..|q.taken| + k], writers := WakeAll(q.writers), readers := q.readers[t := Awake])
  }

  function CloseTo(q: Queue, writable: bool): Queue {
    if writable then q.(writeopen := false, readers := WakeAll(q.readers))
    else q.(readopen := false, writers := WakeAll(q.writers))
  }

  // ----- What stops a call, turn by turn -----

  /** The readers or writers of the other end, after the wakeup if there is one. */
  ghost predicate OthersWoken(woken: bool, mood: seq<Mood>, mood': seq<Mood>) {
    |mood'| == |mood| && forall u :: 0 <= u < |mood| ==> mood'[u] == if woken && mood[u] == Asleep then Woken else mood[u]
  }

  /** i bytes of n went in: no turn of the loop before the i-th was stopped by anything, and the i-th was stopped by
      what the outcome says.  A reader that is gone comes first, or a kill, then a full pipe, then a fault. */
  ghost predicate WroteUpTo(q: Queue, n: int, avail: int, killAt: int, o: Outcome, i: int) {
    && 0 <= i <= n && (i > 0 ==> q.readopen) && i <= killAt && i <= avail && Fill(q) + i <= PIPESIZE
    && (o == Aborted <==> i < n && (!q.readopen || i == killAt))
    && (o == Slept <==> i < n && q.readopen && i != killAt && Fill(q) + i == PIPESIZE)
    && (o == Finished && i < n ==> i == avail)
  }

  /** i bytes were delivered: a call sleeps or gives up only on an empty pipe whose other end is open. */
  ghost predicate ReadUpTo(q: Queue, n: int, room: int, killed: bool, o: Outcome, i: int) {
    && (o == Slept <==> |q.stored| == |q.taken| && q.writeopen && !killed)
    && (o == Aborted <==> |q.stored| == |q.taken| && q.writeopen && killed)
    && (o != Finished ==> i == 0)
    && 0 <= i <= n && i <= room && i <= Fill(q) && (o == Finished ==> i == n || i == room || i == Fill(q))
    && (o == Finished && i == 0 ==> n == 0 || room == 0 || (|q.stored| == |q.taken| && !q.writeopen))
  }

  lemma WriteStops(q: Queue, t: int, src: seq<bv8>, avail: int, killAt: int)
    requires Fifo(q) && Enabled(q, Write(t, src, avail, killAt))
    ensures var d, o, i := After(q, Write(t, src, avail, killAt)), PutOutcome(q, |src|, avail, killAt), PutCount(q, |src|, avail, killAt);
            && WroteUpTo(q, |src|, avail, killAt, o, i) && d.stored == q.stored + src[..i] && d.taken == q.taken
            && d.readopen == q.readopen && d.writeopen == q.writeopen
            && d.writers == q.writers[t := if o == Slept then Asleep else Awake] && OthersWoken(o != Aborted, q.readers, d.readers)
  {
  }

  lemma ReadStops(q: Queue, t: int, n: int, room: int, killed: bool)
    requires Fifo(q) && Enabled(q, Read(t, n, room, killed))
    ensures var d, o := After(q, Read(t, n, room, killed)), ReadOutcome(q, killed);
            var i := if o == Finished then Min(n, Min(room, Fill(q))) else 0;
            && ReadUpTo(q, n, room, killed, o, i) && d.stored == q.stored && d.readopen == q.readopen && d.writeopen == q.writeopen
            // A byte more is gone when storing it fails.
            && d.taken == q.taken + q.stored[|q.taken|..|d.taken|]
            && |d.taken| == |q.taken| + i + (if o == Finished && i == room && i < n && i < Fill(q) then 1 else 0)
            && d.readers == q.readers[t := if o == Slept then Asleep else Awake] && OthersWoken(o == Finished, q.writers, d.writers)
  {
  }

  // ----- Runs -----

  /** Disturb is kill, which wakes a sleeper for no reason of the pipe's. */
  datatype Step =
    | Write(t: int, src: seq<bv8>, avail: int, killAt: int)
    | Read(t: int, n: int, room: int, killed: bool)
    | Close(writable: bool)
    | DisturbWriter(t: int)
    | DisturbReader(t: int)

  predicate Enabled(q: Queue, s: Step) {
    match s
    case Write(t, src, avail, killAt) =>
      0 <= t < |q.writers| && q.writers[t] != Asleep && 0 <= avail && 0 <= killAt && Fill(q) <= PIPESIZE && q.writeopen
    case Read(t, n, room, _) => 0 <= t < |q.readers| && q.readers[t] != Asleep && 0 <= n && 0 <= room && 0 <= Fill(q) && q.readopen
    case Close(writable) => if writable then Idle(q.writers) else Idle(q.readers)
    case DisturbWriter(t) => 0 <= t < |q.writers| && q.writers[t] == Asleep
    case DisturbReader(t) => 0 <= t < |q.readers| && q.readers[t] == Asleep
  }

  /** No process is inside a call on this end, so the last descriptor of it can go. */
  predicate Idle(mood: seq<Mood>) { forall t :: 0 <= t < |mood| ==> mood[t] == Awake }

  function After(q: Queue, s: Step): Queue
    requires Enabled(q, s)
  {
    match s
    case Write(t, src, avail, killAt) => WriteTo(q, t, src, avail, killAt)
    case Read(t, n, room, killed) => ReadTo(q, t, n, room, killed)
    case Close(writable) => CloseTo(q, writable)
    case DisturbWriter(t) => q.(writers := q.writers[t := Woken])
    case DisturbReader(t) => q.(readers := q.readers[t := Woken])
  }

  /** Bytes come out in the order they went in, and at most 512 are under way. */
  predicate Fifo(q: Queue) { q.taken <= q.stored && Fill(q) <= PIPESIZE }

  /** Who sleeps has a reason to, and somebody left to wake it. */
  ghost predicate NoneForgotten(q: Queue) {
    && (forall t :: 0 <= t < |q.writers| && q.writers[t] == Asleep ==> Fill(q) == PIPESIZE && q.readopen)
    && (forall t :: 0 <= t < |q.readers| && q.readers[t] == Asleep ==> Fill(q) == 0 && q.writeopen)
  }

  lemma StepFifo(q: Queue, s: Step)
    requires Fifo(q) && Enabled(q, s)
    ensures Fifo(After(q, s))
    ensures q.stored <= After(q, s).stored && q.taken <= After(q, s).taken
  {
  }

  /** A writer that has stored bytes is found killed, and a reader is asleep: pipewrite returns without a
      wakeup. */
  ghost predicate Forgets(q: Queue, s: Step) {
    && s.Write? && PutOutcome(q, |s.src|, s.avail, s.killAt) == Aborted && PutCount(q, |s.src|, s.avail, s.killAt) > 0
    && exists t :: 0 <= t < |q.readers| && q.readers[t] == Asleep
  }

  /** That is the one way to leave a process asleep without reason. */
  lemma ForgottenIff(q: Queue, s: Step)
    requires Fifo(q) && NoneForgotten(q) && Enabled(q, s)
    ensures NoneForgotten(After(q, s)) <==> !Forgets(q, s)
  {
    if Forgets(q, s) {
      var t :| 0 <= t < |q.readers| && q.readers[t] == Asleep;
      assert After(q, s).readers[t] == Asleep;
    }
  }

  predicate IsRun(q: Queue, ss: seq<Step>)
    decreases |ss|
  {
    ss == [] || (Enabled(q, ss[0]) && IsRun(After(q, ss[0]), ss[1..]))
  }

  function Run(q: Queue, ss: seq<Step>): Queue
    requires IsRun(q, ss)
    decreases |ss|
  {
    if ss == [] then q else Run(After(q, ss[0]), ss[1..])
  }

  /** No step of the run forgets a reader. */
  ghost predicate Wakeful(q: Queue, ss: seq<Step>)
    requires IsRun(q, ss)
    decreases |ss|
  {
    ss == [] || (!Forgets(q, ss[0]) && Wakeful(After(q, ss[0]), ss[1..]))
  }

  /** At no point of the run is a process asleep without reason. */
  ghost predicate NeverForgotten(q: Queue, ss: seq<Step>)
    requires IsRun(q, ss)
    decreases |ss|
  {
    NoneForgotten(q) && (ss == [] || NeverForgotten(After(q, ss[0]), ss[1..]))
  }

  /** In every run, with kills and faults anywhere, what readers have taken is a prefix of what writers have
      stored; and processes sleep only for a condition that does not hold and can still come, all along, if
      and only if no writer is found killed between its bytes and its wakeup while a reader is asleep. */
  lemma {:induction false} RunFifo(q: Queue, ss: seq<Step>)
    requires Fifo(q) && IsRun(q, ss)
    ensures Fifo(Run(q, ss)) && q.taken <= Run(q, ss).taken && q.stored <= Run(q, ss).stored
    ensures NoneForgotten(q) ==> (NeverForgotten(q, ss) <==> Wakeful(q, ss))
    ensures NoneForgotten(q) && Wakeful(q, ss) ==> NoneForgotten(Run(q, ss))
    decreases |ss|
  {
    if ss != [] {
      StepFifo(q, ss[0]);
      if NoneForgotten(q) {
        ForgottenIff(q, ss[0]);
      }
      hide NoneForgotten, Forgets;
      RunFifo(After(q, ss[0]), ss[1..]);
      if !NoneForgotten(After(q, ss[0])) {
        Forgotten(After(q, ss[0]), ss[1..]);
      }
    }
  }

  lemma Forgotten(q: Queue, ss: seq<Step>)
    requires IsRun(q, ss) && !NoneForgotten(q)
    ensures !NeverForgotten(q, ss)
  {
  }

  /** With a kill a reader can be left asleep beside a byte: the writer stores it, is then found killed, and
      returns without a wakeup. */
  lemma KillForgets(b: bv8)
    ensures var q := Queue([], [], true, true, [Awake], [Asleep]);
            var s := Write(0, [b, b], 2, 1);
            Fifo(q) && NoneForgotten(q) && Enabled(q, s) && Forgets(q, s) && Fill(After(q, s)) == 1
  {
    var q := Queue([], [], true, true, [Awake], [Asleep]);
    assert q.readers[0] == Asleep;
  }

  // ----- The ring -----

  lemma Wrapped(n: int)
    requires 0 <= n
    ensures n % 0x1_0000_0000 % 512 == n % 512
    ensures (n % 0x1_0000_0000 + 1) % 0x1_0000_0000 == (n + 1) % 0x1_0000_0000
  {
    var big, m := n / 0x1_0000_0000, n % 0x1_0000_0000;
    var part := big * 0x80_0000;
    assert n == 0x1_0000_0000 * big + m && n == 512 * part + m;
    Mod512(part, m);
    ModBig(big, m + 1);
  }

  lemma Mod512(k: int, m: int)
    ensures (512 * k + m) % 512 == m % 512
  {
  }

  lemma ModBig(k: int, m: int)
    ensures (0x1_0000_0000 * k + m) % 0x1_0000_0000 == m % 0x1_0000_0000
  {
  }

  /** The test for a full pipe, on wrapped counters. */
  lemma FullTest(w: int, r: int)
    requires 0 <= r <= w <= r + 512
    ensures w % 0x1_0000_0000 == (r % 0x1_0000_0000 + 512) % 0x1_0000_0000 <==> w == r + 512
    ensures w % 0x1_0000_0000 == r % 0x1_0000_0000 <==> w == r
  {
  }

  lemma OtherPlace(i: int, w: int)
    requires 0 <= i < w < i + 512
    ensures i % 512 != w % 512
  {
  }

  lemma Prefixes(a: seq<bv8>, b: seq<bv8>, s: seq<bv8>)
    requires a <= b <= s
    ensures b == a + s[|a|..|b|]
  {
  }

  class PipeCode {
    const data: array<bv8>
    var nread: int
    var nwrite: int
    var readopen: bool
    var writeopen: bool
    /** The processes that may write and read. */
    var writers: seq<Mood>
    var readers: seq<Mood>
    ghost var stored: seq<bv8>
    ghost var taken: seq<bv8>

    ghost function Now(): Queue
      reads this
    {
      Queue(stored, taken, readopen, writeopen, writers, readers)
    }

    ghost predicate Valid()
      reads this, data
    {
      && data.Length == PIPESIZE && Fifo(Now())
      && nwrite == |stored| % 0x1_0000_0000 && nread == |taken| % 0x1_0000_0000
      && forall i :: |taken| <= i < |stored| ==> data[i % 512] == stored[i]
    }

    /** pipealloc. */
    constructor (w: nat, r: nat)
      ensures Valid() && fresh(data) && NoneForgotten(Now())
      ensures Now() == Queue([], [], true, true, seq(w, _ => Awake), seq(r, _ => Awake))
    {
      data := new bv8[PIPESIZE];
      nread, nwrite := 0, 0;
      readopen, writeopen := true, true;
      writers, readers := seq(w, _ => Awake), seq(r, _ => Awake);
      stored, taken := [], [];
    }

    /** pi->data[pi->nwrite++ % PIPESIZE] = ch. */
    method StoreByte(ch: bv8)
      requires Valid() && Fill(Now()) < PIPESIZE
      modifies this`nwrite, this`stored, data
      ensures Valid() && stored == old(stored) + [ch]
    {
      ghost var w := |stored|;
      Wrapped(w);
      forall i | |taken| <= i < w ensures i % 512 != w % 512 {
        OtherPlace(i, w);
      }
      data[nwrite % 512] := ch;
      nwrite := (nwrite + 1) % 0x1_0000_0000;
      stored := stored + [ch];
    }

    /** ch = pi->data[pi->nread++ % PIPESIZE]. */
    method TakeByte() returns (ch: bv8)
      requires Valid() && 0 < Fill(Now())
      modifies this`nread, this`taken
      ensures Valid() && ch == stored[|old(taken)|] && taken == old(taken) + [ch]
    {
      Wrapped(|taken|);
      ch := data[nread % 512];
      assert ch == stored[|taken|];
      nread := (nread + 1) % 0x1_0000_0000;
      taken := taken + [ch];
    }

    /** pipewrite by thread t, from taking the lock to giving it up: i bytes of src have gone in.  The caller's
        memory yields `avail` bytes, and killed() becomes true at turn `killAt` of the loop. */
    method Write(t: int, src: seq<bv8>, avail: int, killAt: int) returns (o: Outcome, i: int)
      requires Valid() && Enabled(Now(), Step.Write(t, src, avail, killAt))
      modifies this`nwrite, this`stored, this`writers, this`readers, data
      ensures Valid() && Now() == After(old(Now()), Step.Write(t, src, avail, killAt))
      ensures o == PutOutcome(old(Now()), |src|, avail, killAt) && i == PutCount(old(Now()), |src|, avail, killAt)
      ensures WroteUpTo(old(Now()), |src|, avail, killAt, o, i) && stored == old(stored) + src[..i] && taken == old(taken)
      ensures writers == old(writers)[t := if o == Slept then Asleep else Awake] && OthersWoken(o != Aborted, old(readers), readers)
    {
      WriteStops(Now(), t, src, avail, killAt);
      ghost var q := Now();
      o, i := Store(src, avail, killAt);
      if o == Aborted {
        writers := writers[t := Awake];
        return;
      }
      readers := WakeAll(readers);
      writers := writers[t := if o == Slept then Asleep else Awake];
    }

    /** The loop of pipewrite up to a sleep or an exit. */
    method Store(src: seq<bv8>, avail: int, killAt: int) returns (o: Outcome, i: int)
      requires Valid() && 0 <= avail && 0 <= killAt
      modifies this`nwrite, this`stored, data
      ensures Valid() && o == PutOutcome(old(Now()), |src|, avail, killAt) && i == PutCount(old(Now()), |src|, avail, killAt)
      ensures 0 <= i <= |src| && stored == old(stored) + src[..i]
    {
      ghost var q := Now();
      o, i := Finished, 0;
      while i < |src|
        invariant 0 <= i <= |src| && Valid() && stored == q.stored + src[..i]
        invariant i <= PutCount(q, |src|, avail, killAt)
      {
        FullTest(|stored|, |taken|);
        if !readopen || i == killAt {
          return Aborted, i;
        }
        if nwrite == (nread + PIPESIZE) % 0x1_0000_0000 {
          return Slept, i;
        } else {
          if i == avail {
            return Finished, i;
          }
          StoreByte(src[i]);
          i := i + 1;
        }
      }
    }

    /** piperead by thread t, from taking the lock to giving it up: i bytes are delivered, all of them in
        order, and one more is lost when the caller's memory, which takes `room` bytes, gives out. */
    method Read(t: int, n: int, room: int, killed: bool) returns (o: Outcome, i: int, ghost got: seq<bv8>)
      requires Valid() && Enabled(Now(), Step.Read(t, n, room, killed))
      modifies this`nread, this`taken, this`writers, this`readers
      ensures Valid() && Now() == After(old(Now()), Step.Read(t, n, room, killed)) && o == ReadOutcome(old(Now()), killed)
      ensures got <= stored[|old(taken)|..] && |got| == i
      ensures o == Finished ==> i == Min(n, Min(room, Fill(old(Now()))))
      ensures ReadUpTo(old(Now()), n, room, killed, o, i) && stored == old(stored) && old(taken) + got <= taken
      ensures |taken| == |old(taken)| + i + (if o == Finished && i == room && i < n && i < Fill(old(Now())) then 1 else 0)
      ensures readers == old(readers)[t := if o == Slept then Asleep else Awake] && OthersWoken(o == Finished, old(writers), writers)
    {
      hide ReadUpTo, OthersWoken, WakeAll, TakeCount;
      ReadStops(Now(), t, n, room, killed);
      FullTest(|stored|, |taken|);
      got, i := [], 0;
      if nread == nwrite && writeopen {
        if killed {
          readers := readers[t := Awake];
          return Aborted, 0, got;
        }
        readers := readers[t := Asleep];
        return Slept, 0, got;
      }
      i, got := Deliver(t, n, room);
      o := Finished;
    }

    /** The rest of piperead: the bytes, and a wakeup for the writers. */
    method Deliver(t: int, n: int, room: int) returns (i: int, ghost got: seq<bv8>)
      requires Valid() && 0 <= t < |readers| && 0 <= n && 0 <= room && ReadOutcome(Now(), false) == Finished
      modifies this`nread, this`taken, this`writers, this`readers
      ensures Valid() && Now() == ReadTo(old(Now()), t, n, room, false)
      ensures got <= stored[|old(taken)|..] && |got| == i == Min(n, Min(room, Fill(old(Now())))) && old(taken) + got <= taken
    {
      ghost var before := taken;
      i, got := CopyOut(n, room);
      Prefixes(before, taken, stored);
      assert taken[..|before| + i] == before + got;
      writers := WakeAll(writers);
      readers := readers[t := Awake];
    }

    /** The second loop of piperead. */
    method CopyOut(n: int, room: int) returns (i: int, ghost got: seq<bv8>)
      requires Valid() && 0 <= n && 0 <= room
      modifies this`nread, this`taken
      ensures Valid() && i == Min(n, Min(room, old(Fill(Now()))))
      ensures |taken| == |old(taken)| + TakeCount(old(Now()), n, room) && old(taken) <= taken
      ensures |old(taken)| + i <= |stored| && got == stored[|old(taken)|..|old(taken)| + i]
    {
      ghost var p, fill := |taken|, Fill(Now());
      i, got := 0, [];
      while i < n
        invariant 0 <= i <= n && Valid() && i <= room && i <= fill && p + fill == |stored|
        invariant |taken| == p + i && old(taken) <= taken && got == stored[p..p + i]
      {
        FullTest(|stored|, |taken|);
        if nread == nwrite {
          break;
        }
        var ch := TakeByte();
        if i == room {
          break;
        }
        got := got + [ch];
        i := i + 1;
      }
    }

    /** pipeclose; with the second end closed, the pipe's page is given back. */
    method ClosePipe(writable: bool) returns (freed: bool)
      requires Valid() && Enabled(Now(), Close(writable))
      modifies this`readopen, this`writeopen, this`writers, this`readers
      ensures Valid() && Now() == After(old(Now()), Close(writable)) && (freed <==> !readopen && !writeopen)
      ensures readopen == (old(readopen) && writable) && writeopen == (old(writeopen) && !writable)
      ensures OthersWoken(writable, old(readers), readers) && OthersWoken(!writable, old(writers), writers)
    {
      if writable {
        writeopen := false;
        readers := WakeAll(readers);
      } else {
        readopen := false;
        writers := WakeAll(writers);
      }
      freed := !readopen && !writeopen;
    }
  }
}
