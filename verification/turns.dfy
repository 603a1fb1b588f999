/** user/tateti.c and user/pingpong.c: K processes that take turns through K semaphores.  Process j downs
    semaphore j, prints its word and ups semaphore j + 1 (0 after the last); semaphore 0 starts at 1, the
    others at 0.  K is 3 for tateti and 2 for pingpong. */
module Turns {
  import opened Scaling
  import opened Semaphore
  import opened Sleepers

  /** Where a process is in its loop. */
  datatype At = Downing | Printing | Upping | Done

  /** rounds finished, and place in the current one. */
  datatype Proc = Proc(round: int, at: At)

  /** out: who printed, in order. */
  datatype Ring = Ring(n: int, sems: seq<Sem>, procs: seq<Proc>, out: seq<int>)

  predicate IsProc(r: Ring, j: int) { 0 <= j < |r.procs| == |r.sems| && IsThread(r.sems[j], j) }

  function After1(j: int, k: int): int { if j + 1 == k then 0 else j + 1 }

  /** A process that neither sleeps nor is done can go on. */
  predicate CanStep(r: Ring, j: int) { IsProc(r, j) && r.procs[j].at != Done && r.sems[j].mood[j] != Asleep }

  /** Process j goes on by one step. */
  function Step1(r: Ring, j: int): Ring
    requires CanStep(r, j)
  {
    var p := r.procs[j];
    match p.at
    case Downing =>
      var s := r.sems[j];
      var d := if s.mood[j] == Awake then DownTo(s, j) else ResumeTo(s, j);
      if d.1 == Slept then r.(sems := r.sems[j := d.0])
      else r.(sems := r.sems[j := d.0], procs := r.procs[j := p.(at := Printing)])
    case Printing => r.(out := r.out + [j], procs := r.procs[j := p.(at := Upping)])
    case Upping =>
      var m := After1(j, |r.procs|);
      r.(sems := r.sems[m := UpTo(r.sems[m])],
         procs := r.procs[j := Proc(p.round + 1, if p.round + 1 == r.n then Done else Downing)])
    case Done => r
  }

  ghost predicate Started(r: Ring) {
    && 1 <= r.n && 1 <= |r.procs| == |r.sems| && r.out == []
    && (forall j :: 0 <= j < |r.procs| ==> r.procs[j] == Proc(0, Downing))
    && forall j :: 0 <= j < |r.sems| ==>
         r.sems[j].inUse && r.sems[j].value == (if j == 0 then 1 else 0) && |r.sems[j].mood| == |r.procs| &&
         forall t :: 0 <= t < |r.procs| ==> r.sems[j].mood[t] == Awake
  }

  /** Process j, when the turn is with process k in round q. */
  ghost predicate ProcOk(r: Ring, j: int, k: int, q: int)
    requires 0 <= j < |r.procs| == |r.sems|
  {
    var p, s := r.procs[j], r.sems[j];
    && p.round == (if j < k then q + 1 else q) && |s.mood| == |r.procs| && s.inUse
    && (p.at == Done <==> p.round == r.n)
    && (p.at == Printing || p.at == Upping ==> j == k)
    && (p.at != Downing ==> s.mood[j] == Awake)
    && s.value == (if j == k && (p.at == Downing || p.at == Done) then 1 else 0)
    && (s.mood[j] == Asleep ==> s.value == 0) && (s.mood[j] == Woken ==> s.value == 1)
  }

  ghost predicate Turn(r: Ring, k: int, q: int) {
    && 1 <= r.n && 0 <= k < |r.procs| == |r.sems| && 0 <= q <= r.n && (q == r.n ==> k == 0)
    && (forall j :: 0 <= j < |r.procs| ==> ProcOk(r, j, k, q))
    && |r.out| == q * |r.procs| + k + (if r.procs[k].at == Upping then 1 else 0)
    && forall i :: 0 <= i < |r.out| ==> r.out[i] == i % |r.procs|
  }

  lemma StartedTurn(r: Ring)
    requires Started(r)
    ensures Turn(r, 0, 0)
  {
  }

  lemma PrintKeeps(r: Ring, k: int, q: int, j: int)
    requires Turn(r, k, q) && CanStep(r, j) && r.procs[j].at == Printing
    ensures Turn(Step1(r, j), k, q)
  {
    assert ProcOk(r, j, k, q);
    var r' := Step1(r, j);
    forall i | 0 <= i < |r'.procs| ensures ProcOk(r', i, k, q) {
      assert ProcOk(r, i, k, q);
    }
    Position(|r.procs|, q, k, |r.out|);
    hide ProcOk;
  }

  lemma DownKeeps(r: Ring, k: int, q: int, j: int)
    requires Turn(r, k, q) && CanStep(r, j) && r.procs[j].at == Downing
    ensures Turn(Step1(r, j), k, q)
  {
    assert ProcOk(r, j, k, q) && ProcOk(r, k, k, q);
    var r' := Step1(r, j);
    forall i | 0 <= i < |r'.procs| ensures ProcOk(r', i, k, q) {
      assert ProcOk(r, i, k, q);
    }
    assert (r'.procs[k].at == Upping) == (r.procs[k].at == Upping) && r'.out == r.out;
    hide ProcOk;
  }

  lemma UpKeeps(r: Ring, k: int, q: int, j: int)
    requires Turn(r, k, q) && CanStep(r, j) && r.procs[j].at == Upping
    ensures Turn(Step1(r, j), After1(k, |r.procs|), if k + 1 == |r.procs| then q + 1 else q)
  {
    assert ProcOk(r, j, k, q);
    var r' := Step1(r, j);
    var k', q' := After1(k, |r.procs|), if k + 1 == |r.procs| then q + 1 else q;
    forall i | 0 <= i < |r'.procs| ensures ProcOk(r', i, k', q') {
      assert ProcOk(r, i, k, q);
    }
    assert r'.procs[k'].at != Upping by {
      assert ProcOk(r, k', k, q);
    }
    ScaledMore(|r.procs|, q);
    hide ProcOk;
  }

  /** What a whole run keeps: it is somebody's turn. */
  lemma StepKeeps(r: Ring, k: int, q: int, j: int) returns (k': int, q': int)
    requires Turn(r, k, q) && CanStep(r, j)
    ensures Turn(Step1(r, j), k', q')
  {
    k', q' := k, q;
    match r.procs[j].at
    case Downing => DownKeeps(r, k, q, j);
    case Printing => PrintKeeps(r, k, q, j);
    case Upping =>
      UpKeeps(r, k, q, j);
      k', q' := After1(k, |r.procs|), if k + 1 == |r.procs| then q + 1 else q;
  }

  // ----- Runs -----

  /** The processes that step, in order. */
  predicate IsRun(r: Ring, js: seq<int>)
    decreases |js|
  {
    js == [] || (CanStep(r, js[0]) && IsRun(Step1(r, js[0]), js[1..]))
  }

  function Run(r: Ring, js: seq<int>): Ring
    requires IsRun(r, js)
    decreases |js|
  {
    if js == [] then r else Run(Step1(r, js[0]), js[1..])
  }

  lemma {:induction false} RunTurn(r: Ring, k: int, q: int, js: seq<int>) returns (k': int, q': int)
    requires Turn(r, k, q) && IsRun(r, js)
    ensures Turn(Run(r, js), k', q')
    ensures Run(r, js).n == r.n && |Run(r, js).procs| == |r.procs|
    decreases |js|
  {
    k', q' := k, q;
    if js != [] {
      var k1, q1 := StepKeeps(r, k, q, js[0]);
      k', q' := RunTurn(Step1(r, js[0]), k1, q1, js[1..]);
    }
  }

  predicate AllDone(r: Ring) { forall j :: 0 <= j < |r.procs| ==> r.procs[j].at == Done }

  /** Safety: in every interleaving, the words printed so far are the processes' words in turn, from the first
      process on; and when all processes are through, every one has printed n times. */
  lemma WordsInTurn(r: Ring, js: seq<int>)
    requires Started(r) && IsRun(r, js)
    ensures var s := Run(r, js);
            && (forall i :: 0 <= i < |s.out| ==> s.out[i] == i % |r.procs|)
            && (AllDone(s) ==> |s.out| == r.n * |r.procs|)
  {
    StartedTurn(r);
    var k, q := RunTurn(r, 0, 0, js);
    var s := Run(r, js);
    assert ProcOk(s, k, k, q);
    hide Run, IsRun;
  }

  /** Progress: unless all are through, some process can go on. */
  lemma NeverStuck(r: Ring, js: seq<int>) returns (j: int)
    requires Started(r) && IsRun(r, js) && !AllDone(Run(r, js))
    ensures CanStep(Run(r, js), j)
  {
    StartedTurn(r);
    var k, q := RunTurn(r, 0, 0, js);
    var s := Run(r, js);
    hide Run, IsRun;
    j := k;
    assert ProcOk(s, k, k, q);
    DoneTogether(s, k, q);
  }

  lemma DoneTogether(r: Ring, k: int, q: int)
    requires Turn(r, k, q)
    ensures q == r.n ==> AllDone(r)
  {
    forall i | 0 <= i < |r.procs| ensures q == r.n ==> r.procs[i].at == Done {
      assert ProcOk(r, i, k, q);
    }
  }

  // ----- Every run ends -----

  function Rank(m: Mood, p: Proc, n: int): int {
    match p.at
    case Downing => 5 * (n - p.round) + (if m == Awake then 4 else if m == Asleep then 3 else 2) - 5
    case Printing => 5 * (n - p.round) + 1 - 5
    case Upping => 5 * (n - p.round) - 5
    case Done => -1
  }

  /** What is left to do by processes 0 .. k. */
  function Left(r: Ring, k: nat): int
    requires k <= |r.procs| == |r.sems| && forall j :: 0 <= j < |r.sems| ==> IsThread(r.sems[j], j)
  {
    if k == 0 then 0 else Left(r, k - 1) + Rank(r.sems[k - 1].mood[k - 1], r.procs[k - 1], r.n) + 1
  }

  lemma Threads(r: Ring, k: int, q: int)
    requires Turn(r, k, q)
    ensures forall j :: 0 <= j < |r.sems| ==> IsThread(r.sems[j], j)
  {
    forall j | 0 <= j < |r.sems| ensures IsThread(r.sems[j], j) {
      assert ProcOk(r, j, k, q);
    }
  }

  /** A step takes the stepping process further and no other back. */
  lemma RankFalls(r: Ring, k: int, q: int, j: int, i: int)
    requires Turn(r, k, q) && CanStep(r, j) && 0 <= i < |r.procs|
    ensures |Step1(r, j).procs| == |Step1(r, j).sems| == |r.procs| && Step1(r, j).n == r.n
    ensures IsThread(r.sems[i], i) && IsThread(Step1(r, j).sems[i], i)
    ensures var s := Step1(r, j);
            var a, b := Rank(r.sems[i].mood[i], r.procs[i], r.n), Rank(s.sems[i].mood[i], s.procs[i], s.n);
            -1 <= b <= a && (i == j ==> b < a)
  {
    assert ProcOk(r, i, k, q) && ProcOk(r, j, k, q);
  }

  lemma {:induction false} LeftFalls(r: Ring, k: int, q: int, j: int, m: nat)
    requires Turn(r, k, q) && CanStep(r, j) && m <= |r.procs|
    requires |Step1(r, j).procs| == |Step1(r, j).sems| == |r.procs|
    requires (forall i :: 0 <= i < |r.sems| ==> IsThread(r.sems[i], i)) && forall i :: 0 <= i < |r.sems| ==> IsThread(Step1(r, j).sems[i], i)
    ensures 0 <= Left(Step1(r, j), m) <= Left(r, m) && (j < m ==> Left(Step1(r, j), m) < Left(r, m))
  {
    if m > 0 {
      LeftFalls(r, k, q, j, m - 1);
      RankFalls(r, k, q, j, m - 1);
    }
  }

  /** No run is longer than what there is to do at its start, so every run can be driven to its end. */
  lemma {:induction false} RunsEnd(r: Ring, k: int, q: int, js: seq<int>)
    requires Turn(r, k, q) && IsRun(r, js) && forall j :: 0 <= j < |r.sems| ==> IsThread(r.sems[j], j)
    ensures |js| <= Left(r, |r.procs|)
    decreases |js|
  {
    if js == [] {
      LeftPositive(r, k, q, |r.procs|);
    } else {
      var k', q' := StepKeeps(r, k, q, js[0]);
      Threads(Step1(r, js[0]), k', q');
      RankFalls(r, k, q, js[0], 0);
      LeftFalls(r, k, q, js[0], |r.procs|);
      RunsEnd(Step1(r, js[0]), k', q', js[1..]);
    }
  }

  lemma {:induction false} LeftPositive(r: Ring, k: int, q: int, m: nat)
    requires Turn(r, k, q) && m <= |r.procs| && forall j :: 0 <= j < |r.sems| ==> IsThread(r.sems[j], j)
    ensures 0 <= Left(r, m)
  {
    if m > 0 {
      LeftPositive(r, k, q, m - 1);
      assert ProcOk(r, m - 1, k, q);
    }
  }

  // ----- The two programs -----

  function AllAwake(k: nat): (m: seq<Mood>)
    ensures |m| == k && forall t :: 0 <= t < k ==> m[t] == Awake
  {
    if k == 0 then [] else AllAwake(k - 1) + [Awake]
  }

  /** A semaphore that was free, after sem_open.  An id that names none makes sys_sem_open, sys_sem_down and
      sys_sem_up return -1 at once, as those on a closed semaphore return 0; both programs go on unless
      sem_open returns 0, and look at no other result. */
  function Opened(id: int, v: nat, k: nat): Sem {
    if 0 <= id < MAX_SEM then Sem(true, v, AllAwake(k)) else Sem(false, CLOSED, AllAwake(k))
  }

  predicate InTurn(out: seq<int>, k: int)
    requires k > 0
  {
    forall i :: 0 <= i < |out| ==> out[i] == i % k
  }

  /** tateti, past its calls of sem_open and fork. */
  function Tateti(n: int): Ring {
    Ring(n, [Opened(0, 1, 3), Opened(1, 0, 3), Opened(2, 0, 3)], [Proc(0, Downing), Proc(0, Downing), Proc(0, Downing)], [])
  }

  lemma TatetiInTurn(n: int, js: seq<int>)
    requires 1 <= n && IsRun(Tateti(n), js)
    ensures InTurn(Run(Tateti(n), js).out, 3) && (AllDone(Run(Tateti(n), js)) ==> |Run(Tateti(n), js).out| == 3 * n)
  {
    WordsInTurn(Tateti(n), js);
  }

  /** Semaphore ids that pingpong takes for a process id. */
  function Ping(pid: int): int { (pid + 64) * 2 }

  function Pong(pid: int): int { Ping(pid) + 1 }

  /** pingpong of process pid, past its calls of sem_open and fork. */
  function PingPong(pid: int, n: int): Ring {
    Ring(n, [Opened(Ping(pid), 1, 2), Opened(Pong(pid), 0, 2)], [Proc(0, Downing), Proc(0, Downing)], [])
  }

  /** Both ids exist exactly up to pid 65; different processes never share one, nor use one of tateti's. */
  lemma PingPongIds(pid: int, other: int)
    requires 1 <= pid && 1 <= other
    ensures 0 <= Ping(pid) && (Pong(pid) < MAX_SEM <==> pid <= 65) && (Ping(pid) < MAX_SEM <==> pid <= 65)
    ensures pid != other ==> Ping(pid) != Ping(other) && Ping(pid) != Pong(other) && Pong(pid) != Ping(other) && Pong(pid) != Pong(other)
    ensures 2 < Ping(pid) && 2 < Pong(pid)
  {
  }

  /** With a larger pid, pong need not wait for ping. */
  lemma PongFirst(pid: int, n: int)
    requires 66 <= pid && 1 <= n
    ensures IsRun(PingPong(pid, n), [1, 1]) && Run(PingPong(pid, n), [1, 1]).out == [1]
  {
    var r := PingPong(pid, n);
    var r1 := Step1(r, 1);
    assert r1.procs[1].at == Printing && CanStep(r1, 1);
    assert [1, 1][1..] == [1] && [1][1..] == [];
    assert IsRun(r1, [1]) && Run(r1, [1]).out == [1];
  }

  /** All interleavings of ping and pong alternate if and only if the pid is at most 65. */
  lemma PingPongAlternates(pid: int, n: int)
    requires 1 <= pid && 1 <= n
    ensures (forall js :: IsRun(PingPong(pid, n), js) ==> InTurn(Run(PingPong(pid, n), js).out, 2)) <==> pid <= 65
  {
    var r := PingPong(pid, n);
    if pid <= 65 {
      forall js | IsRun(r, js) ensures InTurn(Run(r, js).out, 2) {
        WordsInTurn(r, js);
      }
    } else {
      PongFirst(pid, n);
      assert IsRun(r, [1, 1]) && Run(r, [1, 1]).out[0] == 1;
    }
  }
}
