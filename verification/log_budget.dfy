/** Why a file system call that logs at most MAXOPBLOCKS distinct blocks, as writei and itrunc do, keeps the
    contract of begin_op: whatever the other operations do meanwhile, each of its log_writes is one that the log
    machine lets it make. */
module LogBudget {
  import opened LogMachine
  import opened LogCrash

  /** Operation p goes on through this step. */
  predicate GoesOn(p: nat, l: Label) { l != EndOp(p) && l != Crash }

  /** The blocks that p has handed to log_write. */
  function Wrote(p: nat, ls: seq<Label>): set<int>
    decreases |ls|
  {
    if ls == [] then {} else (if ls[0].LogWrite? && ls[0].p == p then {ls[0].b} else {}) + Wrote(p, ls[1..])
  }

  /** p has written the blocks w: they are in the header, and p has added no others. */
  ghost predicate Within(s: State, p: nat, w: set<int>) {
    && s.mem.Some? && !s.panicked && p in s.mem.value.ops && s.mem.value.ops[p] <= |w|
    && forall b :: b in w ==> b in s.mem.value.lh
  }

  /** No commit runs while p is at work. */
  lemma AtWork(lay: Layout, s: State, sp: Spec, p: nat)
    requires Inv(lay, s, sp) && s.mem.Some? && p in s.mem.value.ops
    ensures s.mem.value.pc.Idle? && !s.mem.value.committing
  {
    hide HeaderOk, Recovers, MemOk, Unused;
  }

  lemma LogWithin(lay: Layout, s: State, p: nat, q: nat, b: int, w: set<int>)
    requires Within(s, p, w) && q in s.mem.value.ops && !Full(lay, s.mem.value)
    ensures Within(DoLogWrite(lay, s, q, b), p, w + if q == p then {b} else {})
  {
    if q == p && b !in w {
      assert |w + {b}| == |w| + 1;
    } else if q == p {
      assert w + {b} == w;
    } else {
      assert w + {} == w;
    }
  }

  lemma EndWithin(s: State, p: nat, q: nat, w: set<int>)
    requires Within(s, p, w) && q in s.mem.value.ops && q != p && !s.mem.value.committing
    ensures Within(DoEndOp(s, q), p, w)
  {
    assert p in s.mem.value.ops - {q};
  }

  lemma ElseWithin(lay: Layout, s: State, l: Label, p: nat, w: set<int>)
    requires Enabled(lay, s, l) && GoesOn(p, l) && Within(s, p, w) && s.mem.value.pc.Idle?
    requires !l.LogWrite? && !l.EndOp?
    ensures Within(Apply(lay, s, l), p, w)
  {
    hide HeadBlock, HeadBlocks, DoLogWrite, DoEndOp, InstallOne, MustWait;
  }

  lemma WithinGist(s: State, p: nat, w: set<int>)
    requires Within(s, p, w)
    ensures s.mem.Some? && !s.panicked && p in s.mem.value.ops
  {
  }

  lemma StepWithin(lay: Layout, s: State, sp: Spec, l: Label, p: nat, w: set<int>)
    requires Inv(lay, s, sp) && Enabled(lay, s, l) && GoesOn(p, l) && Within(s, p, w)
    requires !Apply(lay, s, l).panicked
    ensures Within(Apply(lay, s, l), p, w + if l.LogWrite? && l.p == p then {l.b} else {})
  {
    hide Inv, DoLogWrite, DoEndOp, Full, Within;
    assert s.mem.Some? && !s.panicked && p in s.mem.value.ops by {
      WithinGist(s, p, w);
    }
    AtWork(lay, s, sp, p);
    assert w + {} == w;
    if l.LogWrite? {
      FullPanics(lay, s, l.p, l.b);
      LogWithin(lay, s, p, l.p, l.b, w);
    } else if l.EndOp? {
      EndWithin(s, p, l.p, w);
    } else {
      ElseWithin(lay, s, l, p, w);
    }
  }

  lemma FullPanics(lay: Layout, s: State, q: nat, b: int)
    requires s.mem.Some? && q in s.mem.value.ops && !s.panicked
    ensures DoLogWrite(lay, s, q, b).panicked <==> Full(lay, s.mem.value)
  {
  }

  /** A panicked kernel takes no step but the crash. */
  lemma PanicLasts(lay: Layout, s: State, ls: seq<Label>)
    requires IsRun(lay, s, ls) && s.panicked && forall i :: 0 <= i < |ls| ==> ls[i] != Crash
    ensures Run(lay, s, ls).panicked
  {
  }

  lemma {:induction false} RunWithin(lay: Layout, s: State, sp: Spec, ls: seq<Label>, p: nat, w: set<int>)
    requires Inv(lay, s, sp) && IsRun(lay, s, ls) && Within(s, p, w) && !Run(lay, s, ls).panicked
    requires forall i :: 0 <= i < |ls| ==> GoesOn(p, ls[i])
    ensures Within(Run(lay, s, ls), p, w + Wrote(p, ls))
    decreases |ls|
  {
    hide Inv, Apply, Enabled, SpecNext, Within;
    if ls == [] {
      assert w + Wrote(p, ls) == w;
    } else {
      var s' := Apply(lay, s, ls[0]);
      if s'.panicked {
        PanicLasts(lay, s', ls[1..]);
      } else {
        var own := if ls[0].LogWrite? && ls[0].p == p then {ls[0].b} else {};
        StepKept(lay, s, sp, ls[0]);
        StepWithin(lay, s, sp, ls[0], p, w);
        RunWithin(lay, s', SpecNext(lay, s, sp, ls[0]), ls[1..], p, w + own);
        assert w + own + Wrote(p, ls[1..]) == w + Wrote(p, ls);
      }
    }
  }

  lemma {:induction false} SubsetSize<T>(a: set<T>, b: set<T>)
    requires a <= b
    ensures |a| <= |b|
    decreases |a|
  {
    if a != {} {
      var x :| x in a;
      SubsetSize(a - {x}, b - {x});
    }
  }

  /** After any interleaving since p began, p may log any home block of its transaction next, once it
      has read it. */
  lemma TransactionLegal(lay: Layout, s: State, sp: Spec, ls: seq<Label>, p: nat, txn: set<int>, b: int)
    requires Inv(lay, s, sp) && IsRun(lay, s, ls) && !Run(lay, s, ls).panicked && !s.panicked
    requires s.mem.Some? && p in s.mem.value.ops && s.mem.value.ops[p] == 0
    requires (forall i :: 0 <= i < |ls| ==> GoesOn(p, ls[i])) && Wrote(p, ls) + {b} <= txn && |txn| <= MAXOPBLOCKS && lay.Home(b)
    ensures Run(lay, s, ls).mem.Some? && (b in Run(lay, s, ls).mem.value.cache ==> Enabled(lay, Run(lay, s, ls), LogWrite(p, b)))
  {
    hide Inv, Apply, IsRun, Run;
    RunWithin(lay, s, sp, ls, p, {});
    var w := Wrote(p, ls);
    assert {} + w == w;
    if b !in Run(lay, s, ls).mem.value.lh {
      SubsetSize(w + {b}, txn);
      assert |w + {b}| == |w| + 1;
    }
  }
}
