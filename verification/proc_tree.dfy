/** fork, exit and wait of kernel/proc.c as a machine.  A step is what a process does under wait_lock or under
    one p->lock, so wait_lock is free between steps and runs are all interleavings of all processes. */
module ProcTree {
  datatype State = UNUSED | USED | SLEEPING | RUNNABLE | RUNNING | ZOMBIE

  /** Where a process is in fork: its child is allocated, then linked, then made runnable. */
  datatype Forking = None | Linking(np: int) | Readying(np: int)

  /** Parents and channels are slots of the process table, or -1; a channel past the table is some other
      address.  `maker` is the process that is forking this one, `xstate` the status that it has exited with. */
  datatype Proc = Proc(state: State, pid: int, parent: int, chan: int, killed: bool, fork: Forking, maker: int, xstate: int)

  /** reaped: the pids that wait has returned, in order. */
  datatype Table = Table(procs: seq<Proc>, nextpid: int, init: int, reaped: seq<int>)

  datatype Step =
    | Alloc(p: int, np: int)
    | ForkFail(p: int)
    | Link(p: int)
    | Ready(p: int)
    | Exit(p: int, status: int)
    | Reap(p: int, pp: int)
    | Barren(p: int)
    | WaitSleep(p: int)
    | Doze(p: int, chan: int)
    | Wakeup(p: int, chan: int)
    | Kill(q: int)
    | Dispatch(p: int)
    | Yield(p: int)

  const Vacant: Proc := Proc(UNUSED, 0, -1, -1, false, None, -1, 0)

  predicate IsProc(t: Table, q: int) { 0 <= q < |t.procs| }

  predicate Alive(x: Proc) { x.state == SLEEPING || x.state == RUNNABLE || x.state == RUNNING }

  predicate Running(t: Table, p: int) { IsProc(t, p) && t.procs[p].state == RUNNING }

  predicate Child(t: Table, p: int, q: int) { IsProc(t, q) && t.procs[q].parent == p }

  predicate ZombieChild(t: Table, p: int, q: int) { Child(t, p, q) && t.procs[q].state == ZOMBIE }

  /** Sleeping in wait: on its own slot. */
  predicate Waiting(t: Table, p: int) { IsProc(t, p) && t.procs[p].state == SLEEPING && t.procs[p].chan == p }

  // ----- What a step does to one slot -----

  /** wakeup(chan) by process me, on slot q. */
  function WakeOne(x: Proc, q: int, me: int, chan: int): Proc {
    if q != me && x.state == SLEEPING && x.chan == chan then x.(state := RUNNABLE) else x
  }

  predicate HasChild(t: Table, p: int) { exists q :: 0 <= q < |t.procs| && Child(t, p, q) }

  /** exit under wait_lock: reparent (which wakes init for each child), wakeup(p->parent), the status, ZOMBIE. */
  function ExitOne(t: Table, p: int, status: int, q: int): Proc
    requires IsProc(t, p) && IsProc(t, q)
  {
    var x := t.procs[q];
    var x1 := if x.parent == p then x.(parent := t.init) else x;
    var x2 := if HasChild(t, p) then WakeOne(x1, q, p, t.init) else x1;
    var x3 := WakeOne(x2, q, p, t.procs[p].parent);
    if q == p then x3.(state := ZOMBIE, xstate := status) else x3
  }

  ghost predicate ExitTo(t: Table, p: int, status: int, procs: seq<Proc>)
    requires IsProc(t, p)
  {
    |procs| == |t.procs| && forall q :: 0 <= q < |procs| ==> procs[q] == ExitOne(t, p, status, q)
  }

  ghost predicate WakeTo(t: Table, me: int, chan: int, procs: seq<Proc>) {
    |procs| == |t.procs| && forall q :: 0 <= q < |procs| ==> procs[q] == WakeOne(t.procs[q], q, me, chan)
  }

  // ----- Steps -----

  /** WaitSleep does not look at `killed`: kill takes no wait_lock, so it can fall between wait's test of
      killed(p) and the sleep. */
  ghost predicate Next(t: Table, s: Step, t': Table) {
    && t'.init == t.init
    && match s
       case Alloc(p, np) =>
         && Running(t, p) && t.procs[p].fork == None && IsProc(t, np) && t.procs[np].state == UNUSED
         && t' == t.(procs := t.procs[np := t.procs[np].(pid := t.nextpid, state := USED, maker := p)][p := t.procs[p].(fork := Linking(np))],
                     nextpid := t.nextpid + 1)
       case ForkFail(p) =>
         && Running(t, p) && t.procs[p].fork.Linking? && IsProc(t, t.procs[p].fork.np)
         && t' == t.(procs := t.procs[t.procs[p].fork.np := Vacant][p := t.procs[p].(fork := None)])
       case Link(p) =>
         && Running(t, p) && t.procs[p].fork.Linking? && IsProc(t, t.procs[p].fork.np)
         && var np := t.procs[p].fork.np;
            t' == t.(procs := t.procs[np := t.procs[np].(parent := p)][p := t.procs[p].(fork := Readying(np))])
       case Ready(p) =>
         && Running(t, p) && t.procs[p].fork.Readying? && IsProc(t, t.procs[p].fork.np)
         && var np := t.procs[p].fork.np;
            t' == t.(procs := t.procs[np := t.procs[np].(state := RUNNABLE, maker := -1)][p := t.procs[p].(fork := None)])
       case Exit(p, status) =>
         Running(t, p) && t.procs[p].fork == None && p != t.init && ExitTo(t, p, status, t'.procs) && t' == t.(procs := t'.procs)
       case Reap(p, pp) =>
         && Running(t, p) && t.procs[p].fork == None && ZombieChild(t, p, pp)
         && (forall q :: 0 <= q < pp ==> !ZombieChild(t, p, q))
         && t' == t.(procs := t.procs[pp := Vacant], reaped := t.reaped + [t.procs[pp].pid])
       case Barren(p) =>
         && Running(t, p) && t.procs[p].fork == None && t' == t
       case WaitSleep(p) =>
         && Running(t, p) && t.procs[p].fork == None && HasChild(t, p)
         && (forall q :: 0 <= q < |t.procs| ==> !ZombieChild(t, p, q))
         && t' == t.(procs := t.procs[p := t.procs[p].(state := SLEEPING, chan := p)])
       case Doze(p, chan) =>
         Running(t, p) && !IsProc(t, chan) && t' == t.(procs := t.procs[p := t.procs[p].(state := SLEEPING, chan := chan)])
       case Wakeup(p, chan) => WakeTo(t, p, chan, t'.procs) && t' == t.(procs := t'.procs)
       case Kill(q) =>
         && IsProc(t, q)
         && t' == t.(procs := t.procs[q := t.procs[q].(killed := true, state := if t.procs[q].state == SLEEPING then RUNNABLE else t.procs[q].state)])
       case Dispatch(p) =>
         IsProc(t, p) && t.procs[p].state == RUNNABLE && t' == t.(procs := t.procs[p := t.procs[p].(state := RUNNING)])
       case Yield(p) =>
         Running(t, p) && t' == t.(procs := t.procs[p := t.procs[p].(state := RUNNABLE)])
  }

  // ----- What every run keeps -----

  ghost predicate PidOk(t: Table, x: Proc) {
    x.state != UNUSED ==> 0 < x.pid < t.nextpid && x.pid !in t.reaped
  }

  /** Links go to living processes with smaller pids, and everything that has been linked has one. */
  ghost predicate ParentOk(t: Table, q: int)
    requires IsProc(t, q)
  {
    var x := t.procs[q];
    && (x.state == UNUSED ==> x.pid == 0 && x.parent == -1 && x.fork == None)
    && (x.parent != -1 ==> IsProc(t, x.parent) && Alive(t.procs[x.parent]) && t.procs[x.parent].pid < x.pid)
    && (q != t.init && (Alive(x) || x.state == ZOMBIE) ==> x.parent != -1)
    && (x.state == ZOMBIE ==> !Waiting(t, x.parent) && x.fork == None)
  }

  /** A child in the making belongs to one process that is inside fork. */
  ghost predicate ForkOk(t: Table, q: int)
    requires IsProc(t, q)
  {
    var x := t.procs[q];
    && (x.fork != None ==> Alive(x) && IsProc(t, x.fork.np) && t.procs[x.fork.np].state == USED && t.procs[x.fork.np].maker == q)
    && (x.fork.Linking? ==> t.procs[x.fork.np].parent == -1 && x.pid < t.procs[x.fork.np].pid)
    && (x.fork.Readying? ==> t.procs[x.fork.np].parent == q)
    && (x.state == USED ==> IsProc(t, x.maker) && x.fork == None && t.procs[x.maker].fork != None && t.procs[x.maker].fork.np == q)
  }

  /** init is the root, and every other process is younger. */
  ghost predicate InitOk(t: Table, q: int)
    requires IsProc(t, q) && IsProc(t, t.init)
  {
    var x := t.procs[q];
    if q == t.init then Alive(x) && x.parent == -1 else x.state != UNUSED ==> t.procs[t.init].pid < x.pid
  }

  ghost predicate Slot(t: Table, q: int) {
    IsProc(t, q) && IsProc(t, t.init) && PidOk(t, t.procs[q]) && ParentOk(t, q) && ForkOk(t, q) && InitOk(t, q)
  }

  ghost predicate SamePid(t: Table, q: int, r: int) {
    IsProc(t, q) && IsProc(t, r) && t.procs[q].state != UNUSED && t.procs[r].state != UNUSED && t.procs[q].pid == t.procs[r].pid
  }

  ghost predicate DistinctPids(t: Table) { forall q, r :: SamePid(t, q, r) ==> q == r }

  ghost predicate ReapedOnce(t: Table) {
    && (forall i :: 0 <= i < |t.reaped| ==> 0 < t.reaped[i] < t.nextpid)
    && forall i, j :: 0 <= i < j < |t.reaped| ==> t.reaped[i] != t.reaped[j]
  }

  ghost predicate Inv(t: Table) {
    && IsProc(t, t.init) && 0 < t.nextpid && (forall q :: 0 <= q < |t.procs| ==> Slot(t, q)) && DistinctPids(t) && ReapedOnce(t)
  }

  /** userinit: one process. */
  ghost predicate Booted(t: Table) {
    && IsProc(t, t.init) && t.nextpid == 2 && t.reaped == []
    && t.procs[t.init] == Proc(RUNNABLE, 1, -1, -1, false, None, -1, 0)
    && forall q :: 0 <= q < |t.procs| && q != t.init ==> t.procs[q] == Vacant
  }

  lemma BootedInv(t: Table)
    requires Booted(t)
    ensures Inv(t)
  {
  }

  // ----- Steps, one slot at a time -----

  /** The slots whose conditions the conditions of slot q speak of. */
  ghost predicate Around(t: Table, q: int) {
    && Slot(t, q)
    && (t.procs[q].parent != -1 ==> Slot(t, t.procs[q].parent))
    && (t.procs[q].fork != None ==> Slot(t, t.procs[q].fork.np))
    && (t.procs[q].state == USED ==> Slot(t, t.procs[q].maker))
  }

  lemma AroundAll(t: Table, q: int)
    requires Inv(t) && 0 <= q < |t.procs|
    ensures Around(t, q) && Slot(t, t.init)
  {
    assert Slot(t, q);
    hide DistinctPids, ReapedOnce, InitOk, PidOk;
    assert t.procs[q].parent != -1 ==> Slot(t, t.procs[q].parent);
    assert t.procs[q].fork != None ==> Slot(t, t.procs[q].fork.np);
    assert t.procs[q].state == USED ==> Slot(t, t.procs[q].maker);
  }

  lemma AllocSlot(t: Table, s: Step, t': Table, q: int)
    requires Next(t, s, t') && s.Alloc? && Around(t, q) && Around(t, s.p) && Around(t, s.np) && Slot(t, t.init) && ReapedOnce(t) && 0 < t.nextpid
    ensures Slot(t', q)
  {
  }

  lemma ForkFailSlot(t: Table, s: Step, t': Table, q: int)
    requires Next(t, s, t') && s.ForkFail? && Around(t, q) && Around(t, s.p) && Around(t, t.procs[s.p].fork.np) && Slot(t, t.init)
    ensures Slot(t', q)
  {
  }

  lemma LinkSlot(t: Table, s: Step, t': Table, q: int)
    requires Next(t, s, t') && s.Link? && Around(t, q) && Around(t, s.p) && Around(t, t.procs[s.p].fork.np) && Slot(t, t.init)
    ensures Slot(t', q)
  {
  }

  lemma ReadySlot(t: Table, s: Step, t': Table, q: int)
    requires Next(t, s, t') && s.Ready? && Around(t, q) && Around(t, s.p) && Around(t, t.procs[s.p].fork.np) && Slot(t, t.init)
    ensures Slot(t', q)
  {
  }

  lemma ReapSlot(t: Table, s: Step, t': Table, q: int)
    requires Next(t, s, t') && s.Reap? && Around(t, q) && Around(t, s.p) && Around(t, s.pp) && Slot(t, t.init)
    requires SamePid(t, q, s.pp) ==> q == s.pp
    ensures Slot(t', q)
  {
  }

  /** Another mood of the same process: asleep, ready or running. */
  predicate SameBut(x: Proc, y: Proc) {
    y.pid == x.pid && y.parent == x.parent && y.fork == x.fork && y.maker == x.maker && (y.state == x.state || (Alive(x) && Alive(y)))
  }

  predicate IsMood(s: Step) { s.WaitSleep? || s.Doze? || s.Dispatch? || s.Yield? || s.Kill? || s.Wakeup? }

  lemma MoodShape(t: Table, s: Step, t': Table, q: int)
    requires Next(t, s, t') && IsMood(s) && IsProc(t, q)
    ensures IsProc(t', q) && SameBut(t.procs[q], t'.procs[q])
    ensures Waiting(t', q) ==> Waiting(t, q) || s == WaitSleep(q)
  {
  }

  lemma MoodMeta(t: Table, s: Step, t': Table)
    requires Next(t, s, t') && IsMood(s)
    ensures t'.init == t.init && t'.nextpid == t.nextpid && t'.reaped == t.reaped && |t'.procs| == |t.procs|
  {
  }

  lemma MoodParent(t: Table, s: Step, t': Table, q: int)
    requires Next(t, s, t') && IsMood(s)
    requires Around(t, q) && Slot(t, t.init) && (s.WaitSleep? ==> !ZombieChild(t, s.p, q))
    ensures IsProc(t', q) && ParentOk(t', q)
  {
    hide Next, ForkOk, PidOk;
    MoodMeta(t, s, t');
    MoodShape(t, s, t', q);
    if t.procs[q].parent != -1 {
      MoodShape(t, s, t', t.procs[q].parent);
    }
  }

  lemma MoodFork(t: Table, s: Step, t': Table, q: int)
    requires Next(t, s, t') && IsMood(s) && Around(t, q)
    ensures IsProc(t', q) && ForkOk(t', q)
  {
    hide Next, InitOk, PidOk;
    MoodMeta(t, s, t');
    MoodShape(t, s, t', q);
    if t.procs[q].fork != None {
      MoodShape(t, s, t', t.procs[q].fork.np);
    }
    if t.procs[q].state == USED {
      MoodShape(t, s, t', t.procs[q].maker);
    }
  }

  lemma MoodSlot(t: Table, s: Step, t': Table, q: int)
    requires Next(t, s, t') && IsMood(s)
    requires Around(t, q) && Slot(t, t.init) && (s.WaitSleep? ==> !ZombieChild(t, s.p, q))
    ensures Slot(t', q)
  {
    hide Next, ParentOk, ForkOk;
    MoodMeta(t, s, t');
    MoodShape(t, s, t', q);
    MoodShape(t, s, t', t.init);
    MoodParent(t, s, t', q);
    MoodFork(t, s, t', q);
  }

  lemma ExitShape(t: Table, s: Step, t': Table, q: int)
    requires Next(t, s, t') && s.Exit? && IsProc(t, q) && IsProc(t, t.init)
    ensures IsProc(t', q) && SameBut(t.procs[q].(state := t'.procs[q].state, parent := t'.procs[q].parent), t'.procs[q])
    ensures t'.procs[q].parent == if t.procs[q].parent == s.p then t.init else t.procs[q].parent
    ensures if q == s.p then t'.procs[q].state == ZOMBIE
            else t'.procs[q].state == t.procs[q].state || (Alive(t.procs[q]) && Alive(t'.procs[q]))
    ensures Waiting(t', q) ==> Waiting(t, q) && !(q == t.init && HasChild(t, s.p)) && q != t.procs[s.p].parent
  {
    assert t'.procs[q] == ExitOne(t, s.p, s.status, q);
    hide HasChild;
  }

  lemma ExitMeta(t: Table, s: Step, t': Table)
    requires Next(t, s, t') && s.Exit?
    ensures t'.init == t.init && t'.nextpid == t.nextpid && t'.reaped == t.reaped && |t'.procs| == |t.procs| && s.p != t.init
    ensures Running(t, s.p) && t.procs[s.p].fork == None
  {
  }

  lemma HasOne(t: Table, p: int, q: int)
    requires IsProc(t, q) && t.procs[q].parent == p
    ensures HasChild(t, p)
  {
    assert Child(t, p, q);
  }

  lemma ExitParent(t: Table, s: Step, t': Table, q: int)
    requires Next(t, s, t') && s.Exit? && Around(t, q) && Around(t, s.p) && Slot(t, t.init)
    ensures IsProc(t', q) && ParentOk(t', q)
  {
    hide Next, HasChild, ForkOk, PidOk;
    ExitMeta(t, s, t');
    ExitShape(t, s, t', q);
    ExitShape(t, s, t', t.init);
    if t.procs[q].parent == s.p {
      HasOne(t, s.p, q);
    }
    if t.procs[q].parent != -1 {
      ExitShape(t, s, t', t.procs[q].parent);
    }
  }

  lemma ExitFork(t: Table, s: Step, t': Table, q: int)
    requires Next(t, s, t') && s.Exit? && Around(t, q) && Around(t, s.p) && Slot(t, t.init)
    ensures IsProc(t', q) && ForkOk(t', q)
  {
    hide Next, HasChild, InitOk, PidOk;
    ExitMeta(t, s, t');
    ExitShape(t, s, t', q);
    if t.procs[q].fork != None {
      ExitShape(t, s, t', t.procs[q].fork.np);
    }
    if t.procs[q].state == USED {
      ExitShape(t, s, t', t.procs[q].maker);
    }
  }

  lemma ExitSlot(t: Table, s: Step, t': Table, q: int)
    requires Next(t, s, t') && s.Exit? && Around(t, q) && Around(t, s.p) && Slot(t, t.init)
    ensures Slot(t', q)
  {
    hide Next, HasChild, ParentOk, ForkOk;
    ExitMeta(t, s, t');
    ExitShape(t, s, t', q);
    ExitShape(t, s, t', t.init);
    ExitParent(t, s, t', q);
    ExitFork(t, s, t', q);
  }

  // ----- Steps -----

  lemma ForkingSlot(t: Table, s: Step, t': Table, q: int)
    requires Inv(t) && Next(t, s, t') && 0 <= q < |t.procs| && (s.ForkFail? || s.Link? || s.Ready?)
    ensures Slot(t', q)
  {
    AroundAll(t, q);
    AroundAll(t, s.p);
    AroundAll(t, t.procs[s.p].fork.np);
    hide Around, Slot, Inv;
    if s.ForkFail? {
      ForkFailSlot(t, s, t', q);
    } else if s.Link? {
      LinkSlot(t, s, t', q);
    } else {
      ReadySlot(t, s, t', q);
    }
  }

  lemma StepSlot(t: Table, s: Step, t': Table, q: int)
    requires Inv(t) && Next(t, s, t') && 0 <= q < |t.procs|
    ensures Slot(t', q)
  {
    AroundAll(t, q);
    hide Around, Slot, ReapedOnce, DistinctPids;
    match s
    case Alloc(p, np) => AroundAll(t, p); AroundAll(t, np); AllocSlot(t, s, t', q);
    case ForkFail(_) => ForkingSlot(t, s, t', q);
    case Link(_) => ForkingSlot(t, s, t', q);
    case Ready(_) => ForkingSlot(t, s, t', q);
    case Exit(p, _) => AroundAll(t, p); ExitSlot(t, s, t', q);
    case Reap(p, pp) => AroundAll(t, p); AroundAll(t, pp); PidApart(t, q, pp); ReapSlot(t, s, t', q);
    case Barren(_) => SlotsOf(t, q);
    case _ => MoodSlot(t, s, t', q);
  }

  lemma SlotsOf(t: Table, q: int)
    requires Inv(t) && 0 <= q < |t.procs|
    ensures Slot(t, q)
  {
    hide DistinctPids, ReapedOnce;
  }

  lemma PidApart(t: Table, q: int, r: int)
    requires Inv(t)
    ensures SamePid(t, q, r) ==> q == r
  {
    hide Slot, ReapedOnce;
  }

  /** Who uses which pid changes only when a process is made or freed. */
  lemma StepPids(t: Table, s: Step, t': Table, q: int, r: int)
    requires Inv(t) && Next(t, s, t') && SamePid(t', q, r)
    ensures q == r
  {
    PidApart(t, q, r);
    SlotsOf(t, q);
    SlotsOf(t, r);
    hide Inv, ParentOk, ForkOk, InitOk;
    if s.Exit? {
      ExitShape(t, s, t', q);
      ExitShape(t, s, t', r);
    } else if IsMood(s) {
      MoodShape(t, s, t', q);
      MoodShape(t, s, t', r);
    } else if s.Ready? {
      UsedChild(t, s.p);
    }
  }

  lemma UsedChild(t: Table, p: int)
    requires Inv(t) && IsProc(t, p) && t.procs[p].fork != None
    ensures IsProc(t, t.procs[p].fork.np) && t.procs[t.procs[p].fork.np].state == USED
  {
    SlotsOf(t, p);
    hide DistinctPids, ReapedOnce;
  }

  lemma StepReaped(t: Table, s: Step, t': Table)
    requires Inv(t) && Next(t, s, t')
    ensures ReapedOnce(t') && 0 < t'.nextpid && IsProc(t', t'.init) && |t'.procs| == |t.procs|
  {
    if s.Reap? {
      SlotsOf(t, s.pp);
    }
    hide Slot, DistinctPids;
  }

  lemma StepKept(t: Table, s: Step, t': Table)
    requires Inv(t) && Next(t, s, t')
    ensures Inv(t')
  {
    hide Inv, Next, Slot, SamePid, ReapedOnce;
    StepReaped(t, s, t');
    forall q | 0 <= q < |t'.procs| ensures Slot(t', q) {
      StepSlot(t, s, t', q);
    }
    forall q, r | SamePid(t', q, r) ensures q == r {
      StepPids(t, s, t', q, r);
    }
    InvOf(t');
  }

  lemma InvOf(t: Table)
    requires IsProc(t, t.init) && 0 < t.nextpid && (forall q :: 0 <= q < |t.procs| ==> Slot(t, q)) && ReapedOnce(t)
    requires forall q, r :: SamePid(t, q, r) ==> q == r
    ensures Inv(t)
  {
  }

  // ----- Runs -----

  /** ts[0] is the start, and step i leads from ts[i] to ts[i + 1]. */
  ghost predicate IsRun(ts: seq<Table>, steps: seq<Step>) {
    |ts| == |steps| + 1 && forall i :: 0 <= i < |steps| ==> Next(ts[i], steps[i], ts[i + 1])
  }

  lemma {:induction false} RunKept(ts: seq<Table>, steps: seq<Step>, i: nat)
    requires IsRun(ts, steps) && Booted(ts[0]) && i < |ts|
    ensures Inv(ts[i])
  {
    if i == 0 {
      BootedInv(ts[0]);
    } else {
      RunKept(ts, steps, i - 1);
      assert Next(ts[i - 1], steps[i - 1], ts[i - 1 + 1]);
      StepKept(ts[i - 1], steps[i - 1], ts[i]);
    }
  }

  /** The process that q descends from by n parent links. */
  function Ancestor(t: Table, q: int, n: nat): int
    decreases n
  {
    if n == 0 || !IsProc(t, q) then q else Ancestor(t, t.procs[q].parent, n - 1)
  }

  /** From every process that has been linked, the parent links lead to init. */
  lemma {:induction false} LeadsToInit(t: Table, q: int) returns (n: nat)
    requires Inv(t) && IsProc(t, q) && (Alive(t.procs[q]) || t.procs[q].state == ZOMBIE)
    ensures Ancestor(t, q, n) == t.init
    decreases t.procs[q].pid
  {
    SlotsOf(t, q);
    hide Inv;
    n := 0;
    if q != t.init {
      var up := LeadsToInit(t, t.procs[q].parent);
      n := up + 1;
    }
  }

  /** In every run: no process has a freed or dead parent, none sleeps in wait while a child of its is a zombie,
      and no pid is returned by wait twice. */
  lemma FamilyKept(ts: seq<Table>, steps: seq<Step>, i: nat, q: int)
    requires IsRun(ts, steps) && Booted(ts[0]) && i < |ts| && IsProc(ts[i], q)
    ensures var t := ts[i]; var x := t.procs[q];
            && (x.state != UNUSED && x.parent != -1 ==>
                  IsProc(t, x.parent) && t.procs[x.parent].state != UNUSED && t.procs[x.parent].state != ZOMBIE
                  && t.procs[x.parent].pid < x.pid)
            && (x.state == ZOMBIE ==> !Waiting(t, x.parent))
            && forall j, k :: 0 <= j < k < |t.reaped| ==> t.reaped[j] != t.reaped[k]
  {
    RunKept(ts, steps, i);
    SlotsOf(ts[i], q);
  }

  // ----- kill -----

  /** What kill does to the process it finds: it is marked, and no longer asleep whatever it slept on. */
  lemma KillMarks(t: Table, q: int, t': Table)
    requires Next(t, Kill(q), t')
    ensures IsProc(t', q) && t'.procs[q].killed && t'.procs[q].state != SLEEPING
    ensures t.procs[q].state != SLEEPING ==> t'.procs[q].state == t.procs[q].state
    ensures t.procs[q].state == SLEEPING ==> t'.procs[q].state == RUNNABLE
    ensures forall r :: IsProc(t, r) && r != q ==> IsProc(t', r) && t'.procs[r] == t.procs[r]
  {
  }

  lemma ZombieStep(t: Table, s: Step, t': Table, q: int)
    requires Inv(t) && Next(t, s, t') && IsProc(t', q) && t'.procs[q].state == ZOMBIE
    ensures IsProc(t, q) && t'.procs[q].pid == t.procs[q].pid
    ensures if s.Exit? && s.p == q then s.status == t'.procs[q].xstate
            else t.procs[q].state == ZOMBIE && t'.procs[q].xstate == t.procs[q].xstate
  {
    if s.Ready? {
      UsedChild(t, s.p);
    } else if s.Exit? {
      assert t'.procs[q] == ExitOne(t, s.p, s.status, q);
    }
    hide Inv, HasChild;
  }

  /** What wait finds in a zombie, and hands over with its pid, is what the process of that pid has given to exit. */
  lemma {:induction false} ZombieStatus(ts: seq<Table>, steps: seq<Step>, i: nat, q: int) returns (j: nat)
    requires IsRun(ts, steps) && Booted(ts[0]) && i < |ts| && IsProc(ts[i], q) && ts[i].procs[q].state == ZOMBIE
    ensures j < i && steps[j] == Exit(q, ts[i].procs[q].xstate) && IsProc(ts[j], q) && ts[j].procs[q].pid == ts[i].procs[q].pid
    decreases i
  {
    if i > 0 {
      RunKept(ts, steps, i - 1);
      assert Next(ts[i - 1], steps[i - 1], ts[i - 1 + 1]);
      ZombieStep(ts[i - 1], steps[i - 1], ts[i], q);
      hide Inv, Next, Booted;
      if steps[i - 1].Exit? && steps[i - 1].p == q {
        j := i - 1;
      } else {
        j := ZombieStatus(ts, steps, i - 1, q);
      }
    }
  }

  /** The slot is given back: by wait, or by a fork that fails. */
  predicate Frees(t: Table, s: Step, q: int) {
    (s.Reap? && s.pp == q) || (s.ForkFail? && IsProc(t, s.p) && t.procs[s.p].fork.Linking? && t.procs[s.p].fork.np == q)
  }

  /** Within the first i steps slot q has met a kill since it was last given back. */
  ghost predicate Marked(ts: seq<Table>, steps: seq<Step>, i: nat, q: int)
    requires i <= |steps| < |ts|
    decreases i
  {
    i > 0 && (steps[i - 1] == Kill(q) || (!Frees(ts[i - 1], steps[i - 1], q) && Marked(ts, steps, i - 1, q)))
  }

  lemma MarkStep(t: Table, s: Step, t': Table, q: int)
    requires Inv(t) && Next(t, s, t') && IsProc(t, q)
    ensures IsProc(t', q) && (t'.procs[q].killed <==> s == Kill(q) || (!Frees(t, s, q) && t.procs[q].killed))
  {
    if s.ForkFail? {
      UsedChild(t, s.p);
    } else if s.Exit? {
      assert t'.procs[q] == ExitOne(t, s.p, s.status, q);
    }
    hide Inv, HasChild;
  }

  /** In every run a process is marked killed exactly when its slot has met a kill since it was last given back, so the
      mark stays until the process is reaped. */
  lemma {:induction false} KilledByKill(ts: seq<Table>, steps: seq<Step>, i: nat, q: int)
    requires IsRun(ts, steps) && Booted(ts[0]) && i < |ts| && IsProc(ts[0], q)
    ensures IsProc(ts[i], q) && (ts[i].procs[q].killed <==> Marked(ts, steps, i, q))
    decreases i
  {
    if i > 0 {
      KilledByKill(ts, steps, i - 1, q);
      RunKept(ts, steps, i - 1);
      assert Next(ts[i - 1], steps[i - 1], ts[i - 1 + 1]);
      MarkStep(ts[i - 1], steps[i - 1], ts[i], q);
      hide Inv, Next, Booted, Frees;
    }
  }

  /** kill finds a slot without a process exactly when it is asked for pid 0. */
  lemma KillFindsNobody(t: Table, q: int)
    requires Inv(t) && IsProc(t, q)
    ensures t.procs[q].state == UNUSED <==> t.procs[q].pid == 0
  {
    SlotsOf(t, q);
    hide DistinctPids, ReapedOnce;
  }

  /** The mark stays in the slot: the next process made there is marked before it has run. */
  lemma BornKilled(t: Table, p: int, np: int) returns (ts: seq<Table>, steps: seq<Step>)
    requires Inv(t) && Running(t, p) && t.procs[p].fork == None && IsProc(t, np) && t.procs[np].state == UNUSED && p != np
    ensures steps == [Kill(np), Alloc(p, np), Link(p), Ready(p)] && IsRun(ts, steps) && ts[0] == t
    ensures IsProc(ts[4], np) && ts[4].procs[np].state == RUNNABLE && ts[4].procs[np].killed && ts[4].procs[np].pid == t.nextpid
  {
    hide Inv;
    var t1 := t.(procs := t.procs[np := t.procs[np].(killed := true)]);
    var t2 := t1.(procs := t1.procs[np := t1.procs[np].(pid := t1.nextpid, state := USED, maker := p)][p := t1.procs[p].(fork := Linking(np))],
                  nextpid := t1.nextpid + 1);
    var t3 := t2.(procs := t2.procs[np := t2.procs[np].(parent := p)][p := t2.procs[p].(fork := Readying(np))]);
    var t4 := t3.(procs := t3.procs[np := t3.procs[np].(state := RUNNABLE, maker := -1)][p := t3.procs[p].(fork := None)]);
    ts, steps := [t, t1, t2, t3, t4], [Kill(np), Alloc(p, np), Link(p), Ready(p)];
    assert Next(t, Kill(np), t1) && Next(t1, Alloc(p, np), t2) && Next(t2, Link(p), t3) && Next(t3, Ready(p), t4);
  }
}
