/** The loops of kernel/proc.c over the process table, each as one step of the machine in ProcTree. */
module ProcCode {
  import opened ProcTree

  class ProcTable {
    var procs: seq<Proc>
    var nextpid: int
    const initproc: int
    ghost var reaped: seq<int>

    ghost function Now(): Table
      reads this
    {
      Table(procs, nextpid, initproc, reaped)
    }

    ghost predicate Valid()
      reads this
    {
      Inv(Now())
    }

    /** procinit and userinit, with process `first` as init. */
    constructor (n: int, first: int)
      requires 0 <= first < n
      ensures Valid() && |procs| == n && initproc == first && Booted(Now())
    {
      procs := seq(n, i => if i == first then Proc(RUNNABLE, 1, -1, -1, false, None, -1, 0) else Vacant);
      nextpid := 2;
      initproc := first;
      reaped := [];
      new;
      BootedInv(Now());
    }

    /** wakeup. */
    method WakeUp(me: int, chan: int)
      modifies this`procs
      ensures WakeTo(old(Now()), me, chan, procs)
    {
      var p := 0;
      while p < |procs|
        invariant 0 <= p <= |procs| == |old(procs)|
        invariant forall q :: 0 <= q < |procs| ==>
          procs[q] == if q < p then WakeOne(old(procs)[q], q, me, chan) else old(procs)[q]
      {
        if p != me {
          if procs[p].state == SLEEPING && procs[p].chan == chan {
            procs := procs[p := procs[p].(state := RUNNABLE)];
          }
        }
        p := p + 1;
      }
    }

    /** reparent after i turns: children below slot i belong to init, which is awake if there were any. */
    ghost function ReparentOne(t: Table, p: int, i: int, q: int): Proc
      requires IsProc(t, q)
    {
      var x := t.procs[q];
      var x1 := if q < i && x.parent == p then x.(parent := t.init) else x;
      if exists c :: 0 <= c < i && Child(t, p, c) then WakeOne(x1, q, p, t.init) else x1
    }

    /** reparent. */
    method Reparent(p: int)
      requires 0 <= p < |procs| && p != initproc
      modifies this`procs
      ensures |procs| == |old(procs)|
      ensures forall q :: 0 <= q < |procs| ==> procs[q] == ReparentOne(old(Now()), p, |procs|, q)
    {
      ghost var t := Now();
      var pp := 0;
      while pp < |procs|
        invariant 0 <= pp <= |procs| == |t.procs|
        invariant forall q :: 0 <= q < |procs| ==> procs[q] == ReparentOne(t, p, pp, q)
      {
        ghost var before := procs;
        assert procs[pp].parent == t.procs[pp].parent;
        if procs[pp].parent == p {
          assert Child(t, p, pp);
          procs := procs[pp := procs[pp].(parent := initproc)];
          WakeUp(p, initproc);
        }
        forall q | 0 <= q < |procs| ensures procs[q] == ReparentOne(t, p, pp + 1, q) {
          ReparentNext(t, p, pp, q);
        }
        pp := pp + 1;
      }
    }

    lemma ReparentNext(t: Table, p: int, i: int, q: int)
      requires IsProc(t, q) && 0 <= i < |t.procs|
      ensures Child(t, p, i) ==>
                var x := ReparentOne(t, p, i, q);
                ReparentOne(t, p, i + 1, q) == WakeOne(if q == i then x.(parent := t.init) else x, q, p, t.init)
      ensures !Child(t, p, i) ==> ReparentOne(t, p, i + 1, q) == ReparentOne(t, p, i, q)
    {
      if !Child(t, p, i) {
        assert forall c :: 0 <= c < i + 1 && Child(t, p, c) ==> c < i;
      }
    }

    /** exit, as far as the process tree goes. */
    method Exit(p: int, status: int)
      requires Valid() && Running(Now(), p) && procs[p].fork == None && p != initproc
      modifies this`procs
      ensures Valid() && Next(old(Now()), ProcTree.Exit(p, status), Now())
      ensures procs[p].state == ZOMBIE && procs[p].xstate == status && |procs| == |old(procs)| && (procs[p].parent >= 0 ==> !Waiting(Now(), procs[p].parent))
      ensures forall q :: 0 <= q < |procs| && q != p ==>
        && procs[q].parent == (if old(procs)[q].parent == p then initproc else old(procs)[q].parent)
        && (procs[q].state == old(procs)[q].state || (old(procs)[q].state == SLEEPING && procs[q].state == RUNNABLE))
    {
      ghost var t := Now();
      Reparent(p);
      assert procs[p].parent == t.procs[p].parent by {
        NotOwnParent(t, p);
      }
      WakeUp(p, procs[p].parent);
      procs := procs[p := procs[p].(xstate := status)];
      procs := procs[p := procs[p].(state := ZOMBIE)];
      forall q | 0 <= q < |procs| ensures procs[q] == ExitOne(t, p, status, q) {
        NotOwnParent(t, p);
      }
      StepKept(t, ProcTree.Exit(p, status), Now());
      forall q | 0 <= q < |procs| ensures q != p ==>
        && procs[q].parent == (if t.procs[q].parent == p then initproc else t.procs[q].parent)
        && (procs[q].state == t.procs[q].state || (t.procs[q].state == SLEEPING && procs[q].state == RUNNABLE))
      {
        assert procs[q] == ExitOne(t, p, status, q);
      }
      DeadSeen(Now(), p);
    }

    lemma DeadSeen(t: Table, p: int)
      requires Inv(t) && IsProc(t, p) && t.procs[p].state == ZOMBIE
      ensures !Waiting(t, t.procs[p].parent)
    {
      SlotsOf(t, p);
      hide Inv;
    }

    lemma NotOwnParent(t: Table, p: int)
      requires Inv(t) && IsProc(t, p)
      ensures t.procs[p].parent != p
    {
      SlotsOf(t, p);
      hide Inv;
    }

    ghost predicate HasZombie(t: Table, p: int) { exists q :: 0 <= q < |t.procs| && ZombieChild(t, p, q) }

    /** One round of the loop of wait, up to sleep: the pid of a reaped child, -1, or asleep.  copyFails says
        whether the exit status can be stored for the caller, status is what is stored. */
    method WaitRound(p: int, copyFails: bool) returns (asleep: bool, pid: int, status: int, ghost s: Step)
      requires Valid() && Running(Now(), p) && procs[p].fork == None
      modifies this`procs, this`reaped
      ensures Valid() && Next(old(Now()), s, Now())
      ensures s == Barren(p) || s == WaitSleep(p) || (s.Reap? && s.p == p && pid == old(procs)[s.pp].pid)
      ensures s == Barren(p) ==> !asleep && pid == -1
      ensures s == Barren(p) ==> if HasZombie(Now(), p) then copyFails else !HasChild(Now(), p) || procs[p].killed
      ensures s.Reap? ==> !asleep && !copyFails && status == old(procs)[s.pp].xstate
      ensures s == WaitSleep(p) <==> asleep
      ensures asleep ==> !old(procs)[p].killed
      ensures s.Reap? ==> 0 <= s.pp < |old(procs)| && old(procs)[s.pp].parent == p && old(procs)[s.pp].state == ZOMBIE
      ensures if s.Reap? then procs == old(procs)[s.pp := Vacant]
              else procs == if asleep then old(procs)[p := old(procs)[p].(state := SLEEPING, chan := p)] else old(procs)
    {
      ghost var t := Now();
      var havekids := false;
      var pp := 0;
      while pp < |procs|
        invariant 0 <= pp <= |procs| && Now() == t
        invariant havekids <==> exists q :: 0 <= q < pp && Child(t, p, q)
        invariant forall q :: 0 <= q < pp ==> !ZombieChild(t, p, q)
      {
        if procs[pp].parent == p {
          assert Child(t, p, pp);
          havekids := true;
          if procs[pp].state == ZOMBIE {
            assert ZombieChild(t, p, pp);
            if copyFails {
              return false, -1, 0, Barren(p);
            }
            pid, status := procs[pp].pid, procs[pp].xstate;
            procs := procs[pp := Vacant];
            reaped := reaped + [pid];
            s := Reap(p, pp);
            StepKept(t, s, Now());
            return false, pid, status, s;
          }
        }
        pp := pp + 1;
      }
      if !havekids || procs[p].killed {
        return false, -1, 0, Barren(p);
      }
      procs := procs[p := procs[p].(state := SLEEPING, chan := p)];
      s := WaitSleep(p);
      StepKept(t, s, Now());
      asleep, pid, status := true, -1, 0;
    }

    /** allocproc's search and claim, for process p inside fork; -1 when the table is full. */
    method AllocProc(p: int) returns (np: int)
      requires Valid() && Running(Now(), p) && procs[p].fork == None
      modifies this`procs, this`nextpid
      ensures Valid() && (if np == -1 then Now() == old(Now()) else Next(old(Now()), Alloc(p, np), Now()))
      ensures forall q :: 0 <= q < (if np == -1 then |old(procs)| else np) <= |old(procs)| ==> old(procs)[q].state != UNUSED
      ensures np != -1 ==> 0 <= np < |old(procs)| == |procs| && old(procs)[np].state == UNUSED && procs[np].pid == old(nextpid) < nextpid
    {
      ghost var t := Now();
      np := 0;
      while np < |procs| && procs[np].state != UNUSED
        invariant 0 <= np <= |procs| && forall q :: 0 <= q < np ==> procs[q].state != UNUSED
      {
        np := np + 1;
      }
      if np == |procs| {
        return -1;
      }
      procs := procs[np := procs[np].(pid := nextpid, state := USED, maker := p)];
      procs := procs[p := procs[p].(fork := Linking(np))];
      nextpid := nextpid + 1;
      StepKept(t, Alloc(p, np), Now());
    }

    /** Process q is marked and awake, the others are as they were. */
    ghost predicate Struck(procs0: seq<Proc>, procs: seq<Proc>, q: int) {
      && 0 <= q < |procs0| == |procs| && procs == procs0[q := procs[q]] && procs[q].killed
      && procs[q] == procs0[q].(killed := true, state := procs[q].state)
      && procs[q].state == if procs0[q].state == SLEEPING then RUNNABLE else procs0[q].state
    }

    /** kill. */
    method KillPid(pid: int) returns (r: int)
      requires Valid()
      modifies this`procs
      ensures Valid() && (r == 0 || r == -1)
      ensures r == -1 ==> Now() == old(Now()) && forall q :: 0 <= q < |procs| ==> procs[q].pid != pid
      ensures r == 0 ==> exists q :: Struck(old(procs), procs, q) && old(procs)[q].pid == pid && Next(old(Now()), Kill(q), Now())
                                     && (old(procs)[q].state == UNUSED <==> pid == 0)
    {
      ghost var t := Now();
      var q := 0;
      while q < |procs|
        invariant 0 <= q <= |procs| && Now() == t && forall k :: 0 <= k < q ==> procs[k].pid != pid
      {
        if procs[q].pid == pid {
          procs := procs[q := procs[q].(killed := true)];
          if procs[q].state == SLEEPING {
            procs := procs[q := procs[q].(state := RUNNABLE)];
          }
          StepKept(t, Kill(q), Now());
          KillFindsNobody(t, q);
          assert Struck(t.procs, procs, q);
          return 0;
        }
        q := q + 1;
      }
      r := -1;
    }
  }
}
