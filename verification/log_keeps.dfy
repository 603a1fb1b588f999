/** What holds of every state that is committed holds of every state that is recovered. */
module LogKeeps {
  import opened LogMachine
  import opened LogCrash

  /** The step is the end_op that starts a commit. */
  predicate LastOut(s: State, l: Label) { l.EndOp? && s.mem.Some? && s.mem.value.ops.Keys == {l.p} }

  /** Whenever the last operation ends, the transaction that has been gathered leaves the disk in a good state. */
  ghost predicate GoodCommits(lay: Layout, s: State, sp: Spec, ls: seq<Label>, good: Disk -> bool)
    requires IsRun(lay, s, ls)
    decreases |ls|
  {
    ls == [] || (
      && (LastOut(s, ls[0]) ==> good(Overlay(sp.durable, sp.pending)))
      && GoodCommits(lay, Apply(lay, s, ls[0]), SpecNext(lay, s, sp, ls[0]), ls[1..], good))
  }

  /** The durable state is good, and so is the one that a commit in progress is about to make durable. */
  ghost predicate GoodNow(s: State, sp: Spec, good: Disk -> bool) {
    && good(sp.durable)
    && (s.mem.Some? && (s.mem.value.pc.CopyToLog? || s.mem.value.pc.CommitHead?) ==> good(Overlay(sp.durable, sp.pending)))
  }

  lemma StepGood(lay: Layout, s: State, sp: Spec, l: Label, good: Disk -> bool)
    requires Inv(lay, s, sp) && Enabled(lay, s, l) && GoodNow(s, sp, good)
    requires LastOut(s, l) ==> good(Overlay(sp.durable, sp.pending))
    ensures GoodNow(Apply(lay, s, l), SpecNext(lay, s, sp, l), good)
  {
    if s.mem.Some? && !s.mem.value.pc.Idle? {
      NoOps(lay, s, sp);
    }
    hide Inv, Apply, SpecNext, GoodNow, Enabled;
    if l.EndOp? {
      EndGood(lay, s, sp, l, good);
    } else if l.LogWrite? {
      LogWriteGood(lay, s, sp, l, good);
    } else {
      OtherGood(lay, s, sp, l, good);
    }
  }

  lemma OtherGood(lay: Layout, s: State, sp: Spec, l: Label, good: Disk -> bool)
    requires Enabled(lay, s, l) && !l.EndOp? && !l.LogWrite? && GoodNow(s, sp, good)
    requires s.mem.Some? && !s.mem.value.pc.Idle? ==> s.mem.value.ops == map[]
    ensures GoodNow(Apply(lay, s, l), SpecNext(lay, s, sp, l), good)
  {
    hide Overlay, Full, Seen, HeadBlocks, HeadBlock, View;
  }

  lemma EndGood(lay: Layout, s: State, sp: Spec, l: Label, good: Disk -> bool)
    requires Enabled(lay, s, l) && l.EndOp? && GoodNow(s, sp, good)
    requires LastOut(s, l) ==> good(Overlay(sp.durable, sp.pending))
    ensures GoodNow(Apply(lay, s, l), SpecNext(lay, s, sp, l), good)
  {
    hide Overlay;
    if |s.mem.value.ops - {l.p}| == 0 {
      OnlyOne(s.mem.value.ops, l.p);
    }
  }

  lemma LogWriteGood(lay: Layout, s: State, sp: Spec, l: Label, good: Disk -> bool)
    requires Enabled(lay, s, l) && l.LogWrite? && GoodNow(s, sp, good)
    requires !s.mem.value.pc.Idle? ==> s.mem.value.ops == map[]
    ensures GoodNow(Apply(lay, s, l), SpecNext(lay, s, sp, l), good)
  {
    hide Overlay, Full, Seen;
  }

  lemma OnlyOne(ops: map<nat, nat>, p: nat)
    requires p in ops && |ops - {p}| == 0
    ensures ops.Keys == {p}
  {
    assert (ops - {p}).Keys == {};
    forall q | q in ops ensures q == p {
      assert q != p ==> q in (ops - {p}).Keys;
    }
  }

  lemma NoOps(lay: Layout, s: State, sp: Spec)
    requires Inv(lay, s, sp) && s.mem.Some? && !s.mem.value.pc.Idle?
    ensures s.mem.value.ops == map[]
  {
    hide HeaderOk, Recovers, MemOk, Unused;
  }

  /** A file system whose operations, taken together up to each commit, lead from good states to good states is
      found in a good state after any crash. */
  lemma {:induction false} RecoveredGood(lay: Layout, s: State, sp: Spec, ls: seq<Label>, good: Disk -> bool)
    requires Inv(lay, s, sp) && IsRun(lay, s, ls) && GoodNow(s, sp, good) && GoodCommits(lay, s, sp, ls, good)
    ensures var t := Run(lay, s, ls);
            var d := SpecRun(lay, s, sp, ls).durable;
            && good(d) && |d| == |t.disk| == lay.size && HeaderOk(lay, t.disk)
            && forall b :: lay.Home(b) ==> RecoverBlock(lay, t.disk, HeadN(t.disk[lay.start]), b) == d[b]
    decreases |ls|
  {
    hide Apply, Enabled, SpecNext, GoodNow, MemOk, Reserved, HeaderOk, RecoverBlock;
    if ls == [] {
      assert good(sp.durable) by {
        StateGood(s, sp, good);
      }
    } else {
      StepKept(lay, s, sp, ls[0]);
      StepGood(lay, s, sp, ls[0], good);
      RecoveredGood(lay, Apply(lay, s, ls[0]), SpecNext(lay, s, sp, ls[0]), ls[1..], good);
    }
  }

  lemma StateGood(s: State, sp: Spec, good: Disk -> bool)
    requires GoodNow(s, sp, good)
    ensures good(sp.durable)
  {
  }
}
