/** kernel/log.c as the source writes it: fields updated in place, loops that copy blocks.
    `history` is the run of LogMachine that has led to the present state, so that every
    theorem of LogCrash speaks about this object after any call. */
module LogCode {
  import opened LogMachine
  import LogCrash

  lemma RunSnoc(lay: Layout, s: State, ls: seq<Label>, l: Label)
    requires IsRun(lay, s, ls) && Enabled(lay, Run(lay, s, ls), l)
    ensures IsRun(lay, s, ls + [l]) && Run(lay, s, ls + [l]) == Apply(lay, Run(lay, s, ls), l)
  {
    hide Enabled, Apply;
    var t := Run(lay, s, ls);
    assert [l][1..] == [];
    assert IsRun(lay, Apply(lay, t, l), [l][1..]);
    RunConcat(lay, s, ls, [l]);
  }

  lemma {:induction false} SpecRunConcat(lay: Layout, s: State, sp: Spec, xs: seq<Label>, ys: seq<Label>)
    requires IsRun(lay, s, xs) && IsRun(lay, Run(lay, s, xs), ys)
    ensures IsRun(lay, s, xs + ys)
    ensures SpecRun(lay, s, sp, xs + ys) == SpecRun(lay, Run(lay, s, xs), SpecRun(lay, s, sp, xs), ys)
    decreases |xs|
  {
    hide SpecNext, Enabled, Apply;
    if xs == [] {
      assert xs + ys == ys;
    } else {
      SpecRunConcat(lay, Apply(lay, s, xs[0]), SpecNext(lay, s, sp, xs[0]), xs[1..], ys);
      assert (xs + ys)[1..] == xs[1..] + ys;
    }
  }

  lemma {:induction false} RunSplit(lay: Layout, s: State, xs: seq<Label>, ys: seq<Label>)
    requires IsRun(lay, s, xs + ys)
    ensures IsRun(lay, s, xs) && IsRun(lay, Run(lay, s, xs), ys)
    decreases |xs|
  {
    hide Enabled, Apply;
    if xs == [] {
      assert xs + ys == ys;
    } else {
      assert (xs + ys)[1..] == xs[1..] + ys;
      RunSplit(lay, Apply(lay, s, xs[0]), xs[1..], ys);
    }
  }

  lemma {:induction false} SpecRunQuiet(lay: Layout, s: State, sp: Spec, ls: seq<Label>)
    requires IsRun(lay, s, ls) && forall l :: l in ls ==> !l.LogWrite? && !l.WriteHead? && !l.Crash? && !l.Modify? && !l.Evict?
    ensures SpecRun(lay, s, sp, ls) == sp
    decreases |ls|
  {
    hide Enabled, Apply;
    if ls != [] {
      SpecRunQuiet(lay, Apply(lay, s, ls[0]), sp, ls[1..]);
    }
  }

  function Repeat(l: Label, k: nat): seq<Label> { seq(k, _ => l) }

  lemma RepeatZero()
    ensures forall l :: Repeat(l, 0) == []
  {
  }

  lemma RepeatSnoc(l: Label, k: nat)
    requires k > 0
    ensures Repeat(l, k) == Repeat(l, k - 1) + [l]
  {
  }

  lemma BootMeans(lay: Layout, d: Disk)
    requires Enabled(lay, State(d, None, false), Boot)
    ensures lay.start < |d| && 0 <= HeadN(d[lay.start]) <= LOGSIZE && |HeadBlocks(d[lay.start])| == HeadN(d[lay.start])
    ensures var lh := HeadBlocks(d[lay.start]);
            Apply(lay, State(d, None, false), Boot) ==
            State(d, Some(Mem(map[], lh, false, map[], {}, if |lh| > 0 then RecoverInstall(0) else RecoverClear)), false)
  {
  }

  /** The disk writes of one commit, in order. */
  function CommitLabels(n: nat): seq<Label> {
    if n == 0 then []
    else Repeat(WriteLog, n) + [WriteHead] + Repeat(InstallTrans, n) + [EraseHead]
  }

  /** The transaction has become durable as a whole. */
  function Committed(sp: Spec): Spec { Spec(Overlay(sp.durable, sp.pending), map[], sp.stray) }

  lemma EmptyCommitted(sp: Spec)
    requires sp.pending == map[]
    ensures Committed(sp) == sp
  {
    assert Overlay(sp.durable, sp.pending) == sp.durable;
  }

  /** Quiet steps, the write of the header, and quiet steps again. */
  lemma CommitSpec(lay: Layout, s: State, sp: Spec, xs: seq<Label>, ys: seq<Label>)
    requires forall l :: l in xs ==> l.EndOp? || l.WriteLog?
    requires forall l :: l in ys ==> l.InstallTrans? || l.EraseHead? || l.WakeAll?
    requires IsRun(lay, s, xs + ([WriteHead] + ys))
    ensures SpecRun(lay, s, sp, xs + ([WriteHead] + ys)) == Committed(sp)
  {
    hide Enabled, Apply, SpecNext;
    RunSplit(lay, s, xs, [WriteHead] + ys);
    SpecRunConcat(lay, s, sp, xs, [WriteHead] + ys);
    SpecRunQuiet(lay, s, sp, xs);
    var t := Run(lay, s, xs);
    assert ([WriteHead] + ys)[1..] == ys;
    SpecRunQuiet(lay, Apply(lay, t, WriteHead), SpecNext(lay, t, sp, WriteHead), ys);
    HeadCommits(lay, t, sp);
  }

  lemma HeadCommits(lay: Layout, s: State, sp: Spec)
    ensures SpecNext(lay, s, sp, WriteHead) == Committed(sp)
  {
  }

  /** The steps of the last end_op. */
  lemma LastEndSpec(lay: Layout, s: State, sp: Spec, p: nat, n: nat)
    requires IsRun(lay, s, [EndOp(p)] + CommitLabels(n) + [WakeAll])
    ensures SpecRun(lay, s, sp, [EndOp(p)] + CommitLabels(n) + [WakeAll]) == if n == 0 then sp else Committed(sp)
  {
    hide Enabled, Apply, SpecNext, IsRun, SpecRun;
    if n == 0 {
      SpecRunQuiet(lay, s, sp, [EndOp(p)] + CommitLabels(n) + [WakeAll]);
    } else {
      var xs, ys := [EndOp(p)] + Repeat(WriteLog, n), Repeat(InstallTrans, n) + [EraseHead, WakeAll];
      assert [EndOp(p)] + CommitLabels(n) + [WakeAll] == xs + ([WriteHead] + ys);
      CommitSpec(lay, s, sp, xs, ys);
    }
  }

  function InstallPc(recovering: bool, tail: nat, n: int): Pc {
    if recovering then (if tail < n then RecoverInstall(tail) else RecoverClear)
    else if tail < n then Install(tail) else ClearHead
  }

  lemma InstallPcKind(recovering: bool, tail: nat, n: int)
    requires tail < n
    ensures InstallPc(recovering, tail, n) == if recovering then RecoverInstall(tail) else Install(tail)
  {
  }

  lemma InstallPcAfter(recovering: bool, tail: nat, m: Mem, copy: Block)
    requires tail < |m.lh| && m.pc == InstallPc(recovering, tail, |m.lh|)
    ensures var cache := m.cache[m.lh[tail] := copy];
            AfterInstall(m.(cache := cache), tail + 1) == m.(cache := cache, pc := InstallPc(recovering, tail + 1, |m.lh|))
  {
  }

  function InstallLabel(recovering: bool): Label { if recovering then RecoverInstallTrans else InstallTrans }

  class Log {
    const lay: Layout
    ghost const init: State
    var disk: Disk
    var cache: map<int, Block>
    var n: int
    const block: array<int>
    var outstanding: int
    var committing: bool
    var panicked: bool
    ghost var ops: map<nat, nat>
    ghost var sleepers: set<nat>
    ghost var pc: Pc
    ghost var history: seq<Label>

    ghost function Abs(): State
      reads this, block
      requires 0 <= n <= block.Length
    {
      State(disk, Some(Mem(cache, block[..n], committing, ops, sleepers, pc)), panicked)
    }

    /** The object is where the run `history` leads from a formatted disk. */
    ghost predicate Valid()
      reads this, block
    {
      && block.Length == LOGSIZE && 0 <= n <= LOGSIZE
      && outstanding == |ops|
      && LogCrash.Formatted(lay, init, Spec(init.disk, map[], map[]))
      && IsRun(lay, init, history) && Run(lay, init, history) == Abs()
    }

    /** Valid, and the kernel has not panicked. */
    ghost predicate Up()
      reads this, block
    {
      Valid() && !panicked
    }

    ghost function Promised(): Spec
      requires IsRun(lay, init, history)
      reads this
    {
      SpecRun(lay, init, Spec(init.disk, map[], map[]), history)
    }

    lemma Invariant()
      requires Valid()
      ensures LogCrash.Inv(lay, Abs(), Promised())
    {
      LogCrash.FormattedInv(lay, init);
      LogCrash.RunKept(lay, init, Spec(init.disk, map[], map[]), history);
    }

    /** Every disk write of commit and recovery is possible when its turn comes. */
    lemma Next(l: Label)
      requires Up()
      requires match l
               case WriteLog => pc.CopyToLog?
               case WriteHead => pc.CommitHead?
               case InstallTrans => pc.Install?
               case RecoverInstallTrans => pc.RecoverInstall?
               case EraseHead => pc.ClearHead?
               case RecoverErase => pc.RecoverClear?
               case WakeAll => pc.Finish?
               case EndOp(p) => p in ops
               case _ => false
      ensures lay.start < |disk| && |disk| == lay.size
      ensures Enabled(lay, Abs(), l)
      ensures IsRun(lay, init, history + [l]) && Run(lay, init, history + [l]) == Apply(lay, Abs(), l)
    {
      hide IsRun, Run, SpecRun, RecoverBlock, Apply, LogCrash.Recovers, LogCrash.Coherent, LogCrash.Reserved, LogCrash.Formatted;
      Invariant();
      RunSnoc(lay, init, history, l);
    }

    lemma EndOpSafe(p: nat)
      requires Up() && p in ops
      ensures !committing && |ops - {p}| == |ops| - 1
    {
      Invariant();
    }

    /** A machine that has not been started on the given formatted disk. */
    constructor (lay: Layout, disk: Disk)
      requires lay.Valid() && |disk| == lay.size && HeadN(disk[lay.start]) == 0
      ensures this.lay == lay && this.disk == disk && history == [] && Down()
    {
      this.lay := lay;
      this.disk := disk;
      init := State(disk, None, false);
      history := [];
      block := new int[LOGSIZE];
    }

    /** Power is lost, before or after a panic; the methods below leave in `history` every point where it
        may strike. */
    ghost method PowerLoss()
      requires Valid()
      modifies this`history
      ensures Down() && history == old(history) + [Crash]
      ensures Promised() == Spec(old(Promised()).durable, map[], map[])
    {
      RunSnoc(lay, init, history, Crash);
      assert [Crash][1..] == [];
      assert IsRun(lay, Abs(), [Crash]);
      SpecRunConcat(lay, init, Spec(init.disk, map[], map[]), history, [Crash]);
      assert SpecRun(lay, Abs(), Promised(), [Crash]) == SpecNext(lay, Abs(), Promised(), Crash);
      history := history + [Crash];
    }

    /** One pass of the loop in begin_op; `wait` tells that the caller went to sleep on the log. */
    method BeginOp(ghost p: nat) returns (wait: bool)
      requires Up() && !pc.RecoverInstall? && !pc.RecoverClear? && p !in ops && p !in sleepers
      modifies this
      ensures Up() && history == old(history) + [LogMachine.BeginOp(p)] && pc == old(pc)
      ensures wait <==> p !in ops
      ensures outstanding == old(outstanding) + (if wait then 0 else 1)
      ensures wait ==> committing || n + (outstanding + 1) * MAXOPBLOCKS > LOGSIZE
    {
      Invariant();
      RunSnoc(lay, init, history, LogMachine.BeginOp(p));
      if committing {
        wait := true;
      } else if n + (outstanding + 1) * MAXOPBLOCKS > LOGSIZE {
        wait := true;
      } else {
        outstanding := outstanding + 1;
        wait := false;
      }
      if wait {
        sleepers := sleepers + {p};
      } else {
        ops := ops[p := 0];
      }
      history := history + [LogMachine.BeginOp(p)];
    }

    /** bread: the block gets into the cache, unless it is there. */
    method Bread(b: int)
      requires Up() && lay.Home(b)
      modifies this`cache, this`history
      ensures Up() && |disk| == lay.size && b in cache && Promised() == old(Promised())
      ensures history == old(history) + if b in old(cache) then [] else [Load(b)]
      ensures cache == if b in old(cache) then old(cache) else old(cache)[b := disk[b]]
    {
      hide IsRun, Run, SpecRun, SpecNext, LogCrash.Formatted;
      assert history + [] == history;
      Invariant();
      hide LogCrash.MemOk, LogCrash.Reserved, LogCrash.Recovers, LogCrash.HeaderOk;
      if b !in cache {
        RunSnoc(lay, init, history, Load(b));
        PromisedNext(Load(b));
        SameSpec(Load(b));
        cache := cache[b := disk[b]];
        history := history + [Load(b)];
      }
    }

    /** An operation changes a buffer that it has locked. */
    method Change(ghost p: nat, b: int, data: Block)
      requires Up() && p in ops && b in cache && lay.Home(b)
      modifies this`cache, this`history
      ensures Up() && cache == old(cache)[b := data] && history == old(history) + [Modify(p, b, data)]
    {
      hide IsRun, Run, SpecRun, LogCrash.Formatted;
      RunSnoc(lay, init, history, Modify(p, b, data));
      cache := cache[b := data];
      history := history + [Modify(p, b, data)];
    }

    /** log_write: absorbs a block that is already logged, else appends and pins it; on a full log it panics
        in either case.  What goes into the transaction is what the cache holds. */
    method LogWrite(ghost p: nat, b: int)
      requires Up() && p in ops && (b in block[..n] || ops[p] < MAXOPBLOCKS) && b in cache && lay.Home(b)
      modifies this, block
      ensures Valid() && history == old(history) + [LogMachine.LogWrite(p, b)] && pc.Idle? && cache == old(cache)
      ensures panicked <==> old(n) >= lay.Capacity()
      ensures panicked ==> disk == old(disk) && Promised() == old(Promised())
      ensures !panicked ==> b in block[..n] && b in Promised().pending && Promised().pending[b] == cache[b] && b !in Promised().stray
      ensures ops.Keys == old(ops.Keys)
    {
      hide IsRun, Run, SpecRun, SpecNext, LogCrash.Formatted;
      Working(p);
      if n >= LOGSIZE || n >= lay.nlog - 1 {
        RunSnoc(lay, init, history, LogMachine.LogWrite(p, b));
        PromisedNext(LogMachine.LogWrite(p, b));
        NothingNew(p, b);
        panicked := true;
        history := history + [LogMachine.LogWrite(p, b)];
        return;
      }
      Record(p, b);
      InTransaction(b);
    }

    /** A block in the header is in the transaction, as the cache has it. */
    lemma InTransaction(b: int)
      requires Up() && pc.Idle? && b in block[..n]
      ensures b in Promised().pending && b in cache && Promised().pending[b] == cache[b] && b !in Promised().stray
    {
      Invariant();
      hide IsRun, Run, SpecRun, LogCrash.Formatted, LogCrash.Reserved, LogCrash.DiskOk;
    }

    lemma SameSpec(l: Label)
      requires Up() && l.Load?
      ensures SpecNext(lay, Abs(), Promised(), l) == Promised()
    {
    }

    lemma NextLogWrite(p: nat, b: int)
      requires Up() && p in ops && (b in block[..n] || ops[p] < MAXOPBLOCKS) && b in cache && lay.Home(b)
      requires pc.Idle? && n < lay.Capacity()
      ensures var ls := history + [LogMachine.LogWrite(p, b)];
        var m := Abs().mem.value;
        IsRun(lay, init, ls) && Run(lay, init, ls) == State(disk,
          Some(if b in m.lh then m else m.(lh := m.lh + [b], ops := ops[p := ops[p] + 1])), false)
    {
      hide IsRun, Run, LogCrash.Formatted;
      RunSnoc(lay, init, history, LogMachine.LogWrite(p, b));
    }

    /** The rest of log_write, with a place in the header left. */
    method Record(ghost p: nat, b: int)
      requires Up() && p in ops && (b in block[..n] || ops[p] < MAXOPBLOCKS) && b in cache && lay.Home(b)
      requires pc.Idle? && n < lay.Capacity()
      modifies this`n, this`ops, this`history, block
      ensures Up() && history == old(history) + [LogMachine.LogWrite(p, b)]
      ensures b in block[..n] && ops.Keys == old(ops.Keys)
    {
      hide IsRun, Run, LogCrash.Formatted, Enabled, Apply;
      NextLogWrite(p, b);
      ghost var m := Abs().mem.value;
      var i := 0;
      while i < n && block[i] != b
        invariant 0 <= i <= n
        invariant b !in block[..i]
      {
        i := i + 1;
      }
      assert i < n ==> b in m.lh;
      assert i == n ==> b !in m.lh;
      block[i] := b;
      if i == n {
        n := n + 1;
        ops := ops[p := ops[p] + 1];
      }
      history := history + [LogMachine.LogWrite(p, b)];
      assert block[..n] == if b in m.lh then m.lh else m.lh + [b];
    }

    lemma PromisedNext(l: Label)
      requires Up() && Enabled(lay, Abs(), l)
      ensures IsRun(lay, init, history + [l])
      ensures SpecRun(lay, init, Spec(init.disk, map[], map[]), history + [l]) == SpecNext(lay, Abs(), Promised(), l)
    {
      hide SpecNext, Enabled, Apply;
      assert [l][1..] == [];
      assert IsRun(lay, Apply(lay, Abs(), l), [l][1..]);
      SpecRunConcat(lay, init, Spec(init.disk, map[], map[]), history, [l]);
    }

    lemma NothingNew(p: nat, b: int)
      requires Up() && Full(lay, Abs().mem.value)
      ensures SpecNext(lay, Abs(), Promised(), LogMachine.LogWrite(p, b)) == Promised()
    {
      hide IsRun, Run, SpecRun;
    }

    lemma NextWriteLog()
      requires Up() && pc.CopyToLog?
      ensures pc.tail < n && lay.start + 1 + pc.tail < |disk| && 0 <= block[pc.tail] < |disk|
      ensures var ls := history + [LogMachine.WriteLog];
        IsRun(lay, init, ls) && Run(lay, init, ls) ==
          State(disk[lay.start + 1 + pc.tail := View(Abs(), block[pc.tail])],
                Some(Abs().mem.value.(pc := if pc.tail + 1 < n then CopyToLog(pc.tail + 1) else CommitHead)), false)
    {
      hide IsRun, Run, LogCrash.Formatted;
      Next(LogMachine.WriteLog);
    }

    lemma NextInstall(l: Label)
      requires Up() && (pc.Install? || pc.RecoverInstall?)
      requires l == if pc.Install? then LogMachine.InstallTrans else RecoverInstallTrans
      ensures pc.tail < n && lay.start + 1 + pc.tail < |disk| && 0 <= block[pc.tail] < |disk|
      ensures var ls := history + [l];
        var copy := disk[lay.start + 1 + pc.tail];
        var m := Abs().mem.value;
        IsRun(lay, init, ls) && Run(lay, init, ls) ==
          State(disk[block[pc.tail] := copy],
                Some(AfterInstall(m.(cache := m.cache[block[pc.tail] := copy]), pc.tail + 1)), false)
    {
      hide IsRun, Run, LogCrash.Formatted;
      Next(l);
    }

    /** write_log: every logged block from the cache to its slot in the log. */
    method WriteLog()
      requires Up() && pc == CopyToLog(0)
      modifies this`disk, this`pc, this`history
      ensures Up() && pc == CommitHead && n == old(n)
      ensures history == old(history) + Repeat(LogMachine.WriteLog, n)
    {
      NextWriteLog();
      hide Up, Repeat;
      RepeatZero();
      var tail := 0;
      while tail < n
        invariant 0 <= tail <= n && n == old(n) > 0
        invariant Up() && pc == if tail < n then CopyToLog(tail) else CommitHead
        invariant history == old(history) + Repeat(LogMachine.WriteLog, tail)
      {
        CopyBlock(tail);
        tail := tail + 1;
        RepeatSnoc(LogMachine.WriteLog, tail);
      }
    }

    /** The body of that loop: one block from the cache to its slot. */
    method CopyBlock(tail: int)
      requires Up() && pc.CopyToLog? && pc.tail == tail
      modifies this`disk, this`pc, this`history
      ensures Up() && pc == (if tail + 1 < n then CopyToLog(tail + 1) else CommitHead)
      ensures history == old(history) + [LogMachine.WriteLog]
    {
      hide IsRun, Run, LogCrash.Formatted;
      NextWriteLog();
      var from := if block[tail] in cache then cache[block[tail]] else disk[block[tail]];
      disk := disk[lay.start + tail + 1 := from];
      pc := if tail + 1 < n then CopyToLog(tail + 1) else CommitHead;
      history := history + [LogMachine.WriteLog];
    }

    /** The loop of write_head over the words of the header buffer. */
    method FillHeader(was: Block) returns (hb: Block)
      requires 0 <= n <= block.Length == LOGSIZE
      ensures hb == HeadBlock(was, block[..n])
    {
      hb := was[0 := n];
      var i := 0;
      while i < n
        invariant 0 <= i <= n
        invariant hb[0] == n && hb[1..1 + i] == block[..i] && hb[1 + i..] == was[1 + i..]
      {
        ghost var before := hb;
        hb := hb[1 + i := block[i]];
        assert hb[1..1 + (i + 1)] == before[1..1 + i] + [block[i]];
        assert hb[1 + (i + 1)..] == before[1 + i..][1..];
        i := i + 1;
      }
      assert hb == [hb[0]] + hb[1..1 + n] + hb[1 + n..];
    }

    /** write_head: the in-memory header over the first words of the on-disk one.
        `s` is the machine's state and `l` the label of the write about to be made. */
    method WriteHead(ghost s: State, ghost l: Label)
      requires 0 <= n <= block.Length == LOGSIZE && lay.start < |disk|
      requires IsRun(lay, init, history) && s == Run(lay, init, history) && !panicked
      requires Enabled(lay, s, l) && Apply(lay, s, l).mem.Some? && Apply(lay, s, l) ==
        State(disk[lay.start := HeadBlock(disk[lay.start], block[..n])],
              Some(Abs().mem.value.(pc := Apply(lay, s, l).mem.value.pc)), false)
      modifies this`disk, this`pc, this`history
      ensures IsRun(lay, init, history) && Run(lay, init, history) == Abs() == Apply(lay, s, l)
      ensures history == old(history) + [l]
    {
      RunSnoc(lay, init, history, l);
      ghost var after := Apply(lay, s, l);
      hide IsRun, Run, Enabled, Apply;
      var hb := FillHeader(disk[lay.start]);
      disk := disk[lay.start := hb];
      pc := after.mem.value.pc;
      history := history + [l];
    }

    /** install_trans: every copy in the log to its home block. */
    method InstallTrans(recovering: bool)
      requires Up() && n > 0 && pc == InstallPc(recovering, 0, n)
      modifies this`disk, this`cache, this`pc, this`history
      ensures Up() && pc == InstallPc(recovering, n, n)
      ensures history == old(history) + Repeat(InstallLabel(recovering), n)
    {
      hide IsRun, Run, LogCrash.Formatted, Enabled, Apply, Repeat;
      RepeatZero();
      var tail := 0;
      while tail < n
        invariant 0 <= tail <= n
        invariant Up() && pc == InstallPc(recovering, tail, n)
        invariant history == old(history) + Repeat(InstallLabel(recovering), tail)
      {
        InstallBlock(recovering, tail);
        tail := tail + 1;
        RepeatSnoc(InstallLabel(recovering), tail);
      }
    }

    /** The body of that loop: read the copy, put it into the destination's buffer, write it home. */
    method InstallBlock(recovering: bool, tail: int)
      requires Up() && 0 <= tail < n && pc == InstallPc(recovering, tail, n)
      modifies this`disk, this`cache, this`pc, this`history
      ensures Up() && pc == InstallPc(recovering, tail + 1, n)
      ensures history == old(history) + [InstallLabel(recovering)]
    {
      hide IsRun, Run, LogCrash.Formatted, Enabled, Apply, AfterInstall, InstallPc;
      InstallPcKind(recovering, tail, n);
      NextInstall(InstallLabel(recovering));
      InstallPcAfter(recovering, tail, Abs().mem.value, disk[lay.start + tail + 1]);
      var lbuf := disk[lay.start + tail + 1];
      cache := cache[block[tail] := lbuf];
      disk := disk[block[tail] := lbuf];
      pc := InstallPc(recovering, tail + 1, n);
      history := history + [InstallLabel(recovering)];
    }

    /** The write_head of commit() and what it means for the machine. */
    method WriteCommitHead()
      requires Up() && pc == CommitHead
      modifies this`disk, this`pc, this`history
      ensures Up() && pc == Install(0) && n == old(n) > 0 && history == old(history) + [LogMachine.WriteHead]
    {
      Next(LogMachine.WriteHead);
      Invariant();
      hide IsRun, Run, LogCrash.Formatted, LogCrash.Inv;
      WriteHead(Abs(), LogMachine.WriteHead);
    }

    /** log.lh.n = 0 and the write_head after it. */
    method EraseCommitted(ghost l: Label)
      requires Up() && ((pc == ClearHead && l == EraseHead) || (pc == RecoverClear && l == RecoverErase))
      modifies this`disk, this`n, this`pc, this`history
      ensures Up() && n == 0 && pc == (if l == EraseHead then Finish else Idle)
      ensures history == old(history) + [l]
    {
      hide IsRun, Run, LogCrash.Formatted;
      ghost var s := Abs();
      Next(l);
      n := 0;
      WriteHead(s, l);
    }

    /** commit: a transaction with blocks goes through the log; an empty one writes nothing. */
    method Commit()
      requires Up() && 0 <= n && pc == if n > 0 then CopyToLog(0) else Finish
      modifies this`disk, this`cache, this`n, this`pc, this`history
      ensures Up() && pc == Finish && n == 0
      ensures history == old(history) + CommitLabels(old(n))
    {
      hide Valid, Up;
      if n > 0 {
        WriteLog();
        WriteCommitHead();
        InstallTrans(false);
        EraseCommitted(EraseHead);
      }
    }

    lemma NextEndOp(p: nat)
      requires Up() && pc.Idle? && p in ops
      ensures !committing && |ops - {p}| == outstanding - 1
      ensures var ls := history + [LogMachine.EndOp(p)];
        var m := Abs().mem.value.(ops := ops - {p});
        IsRun(lay, init, ls) && Run(lay, init, ls) == State(disk,
          Some(if outstanding == 1 then m.(committing := true, pc := if n > 0 then CopyToLog(0) else Finish)
               else m.(sleepers := {})), false)
    {
      hide IsRun, Run, LogCrash.Formatted;
      EndOpSafe(p);
      Next(LogMachine.EndOp(p));
    }

    lemma NextWakeAll()
      requires Up() && pc.Finish?
      ensures var ls := history + [WakeAll];
        IsRun(lay, init, ls) && Run(lay, init, ls) ==
          State(disk, Some(Abs().mem.value.(committing := false, sleepers := {}, pc := Idle)), false)
    {
      hide IsRun, Run, LogCrash.Formatted;
      Next(WakeAll);
    }

    /** end_op up to the release of log.lock. */
    method LeaveOp(ghost p: nat)
      requires Up() && pc.Idle? && p in ops
      modifies this`outstanding, this`committing, this`ops, this`sleepers, this`pc, this`history
      ensures Up() && 0 <= n && outstanding == old(outstanding) - 1
      ensures pc == (if outstanding > 0 then Idle else if n > 0 then CopyToLog(0) else Finish)
      ensures history == old(history) + [LogMachine.EndOp(p)]
    {
      hide IsRun, Run, LogCrash.Formatted, Enabled, Apply;
      NextEndOp(p);
      outstanding := outstanding - 1;
      ops := ops - {p};
      history := history + [LogMachine.EndOp(p)];
      if outstanding == 0 {
        committing := true;
        pc := if n > 0 then CopyToLog(0) else Finish;
      } else {
        sleepers := {};
      }
    }

    /** end_op after commit: committing = 0 and the wakeup. */
    method FinishCommit()
      requires Up() && pc == Finish
      modifies this`committing, this`sleepers, this`pc, this`history
      ensures Up() && pc == Idle && sleepers == {} && history == old(history) + [WakeAll]
    {
      hide IsRun, Run, LogCrash.Formatted, Enabled, Apply;
      NextWakeAll();
      committing := false;
      sleepers := {};
      pc := Idle;
      history := history + [WakeAll];
    }

    /** end_op: the last operation out commits. */
    method EndOp(ghost p: nat)
      requires Up() && p in ops
      modifies this
      ensures Up() && pc.Idle? && outstanding == old(outstanding) - 1
      ensures history == old(history) + [LogMachine.EndOp(p)] +
        (if outstanding == 0 then CommitLabels(old(n)) + [WakeAll] else [])
      ensures Promised() == if outstanding == 0 then Committed(old(Promised())) else old(Promised())
    {
      hide Valid, Up, CommitLabels, IsRun, SpecRun, Committed;
      IsValid();
      ghost var s, sp, k, before := Abs(), Promised(), n, history;
      GatheredNone();
      Working(p);
      LeaveOp(p);
      if outstanding == 0 {
        Commit();
        FinishCommit();
        assert history == before + ([LogMachine.EndOp(p)] + CommitLabels(k) + [WakeAll]);
        LastEnd(s, sp, before, p, k);
      } else {
        EndSpec(s, sp, before, [LogMachine.EndOp(p)]);
        SpecRunQuiet(lay, s, sp, [LogMachine.EndOp(p)]);
      }
    }

    lemma IsValid()
      requires Up()
      ensures 0 <= n <= block.Length && IsRun(lay, init, history) && Run(lay, init, history) == Abs()
    {
    }

    /** With an empty header nothing is pending. */
    lemma GatheredNone()
      requires Up()
      ensures n == 0 && pc.Idle? ==> Committed(Promised()) == Promised()
    {
      Invariant();
      hide IsRun, Run, SpecRun, Committed;
      if n == 0 && pc.Idle? {
        assert Abs().mem.value.lh == [];
        assert forall b :: b !in Promised().pending;
        assert Promised().pending == map[];
        EmptyCommitted(Promised());
      }
    }

    lemma LastEnd(s: State, sp: Spec, before: seq<Label>, p: nat, k: nat)
      requires Up() && history == before + ([LogMachine.EndOp(p)] + CommitLabels(k) + [WakeAll])
      requires IsRun(lay, init, before) && Run(lay, init, before) == s && sp == SpecRun(lay, init, Spec(init.disk, map[], map[]), before)
      ensures IsRun(lay, init, history) && Promised() == if k == 0 then sp else Committed(sp)
    {
      hide Up, CommitLabels, SpecRun, Run, Committed, IsRun;
      IsValid();
      EndSpec(s, sp, before, [LogMachine.EndOp(p)] + CommitLabels(k) + [WakeAll]);
      LastEndSpec(lay, s, sp, p, k);
    }

    /** What the steps since `before` have made of the promise. */
    lemma EndSpec(s: State, sp: Spec, before: seq<Label>, more: seq<Label>)
      requires Up() && history == before + more && IsRun(lay, init, before) && Run(lay, init, before) == s
      requires sp == SpecRun(lay, init, Spec(init.disk, map[], map[]), before)
      ensures IsRun(lay, s, more) && Promised() == SpecRun(lay, s, sp, more)
    {
      hide Enabled, Apply, SpecNext;
      RunSplit(lay, init, before, more);
      SpecRunConcat(lay, init, Spec(init.disk, map[], map[]), before, more);
    }

    /** No commit runs while an operation is in progress. */
    lemma Working(p: nat)
      requires Up() && p in ops
      ensures outstanding > 0 && pc.Idle? && !committing
    {
      Invariant();
    }

    /** The machine is down: only the disk counts. */
    ghost predicate Down()
      reads this
    {
      && block.Length == LOGSIZE
      && LogCrash.Formatted(lay, init, Spec(init.disk, map[], map[]))
      && IsRun(lay, init, history) && Run(lay, init, history) == State(disk, None, false)
    }

    lemma DownInvariant()
      requires Down()
      ensures |disk| == lay.size == |Promised().durable| && LogCrash.HeaderOk(lay, disk)
      ensures Enabled(lay, State(disk, None, false), Boot)
    {
      LogCrash.FormattedInv(lay, init);
      LogCrash.RunKept(lay, init, Spec(init.disk, map[], map[]), history);
    }

    /** read_head. */
    method ReadHead()
      requires block.Length == LOGSIZE && lay.start < |disk| && 0 <= HeadN(disk[lay.start]) <= LOGSIZE
      modifies this`n, block
      ensures n == HeadN(disk[lay.start]) && block[..n] == HeadBlocks(disk[lay.start])
    {
      var lh := disk[lay.start];
      n := lh[0];
      var i := 0;
      while i < n
        invariant 0 <= i <= n == HeadN(lh)
        invariant block[..i] == lh[1..1 + i]
      {
        block[i] := lh[1 + i];
        i := i + 1;
      }
    }

    /** recover_from_log: after it the home blocks are the committed ones, wherever the crash fell. */
    method RecoverFromLog()
      requires Down()
      modifies this`disk, this`cache, this`n, this`outstanding, this`committing, this`ops, this`sleepers,
               this`panicked, this`pc, this`history, block
      ensures Up() && pc.Idle? && n == 0 && outstanding == 0
      ensures exists k: nat :: history == old(history) + [Boot] + Repeat(RecoverInstallTrans, k) + [RecoverErase]
      ensures |disk| == lay.size == |old(Promised()).durable|
      ensures forall b :: lay.Home(b) ==> disk[b] == old(Promised()).durable[b]
    {
      ghost var before := history;
      DownInvariant();
      RunSnoc(lay, init, history, Boot);
      StartUp();
      ghost var k: nat := n;
      if n > 0 {
        InstallTrans(true);
      }
      assert history == before + [Boot] + Repeat(RecoverInstallTrans, k);
      EraseCommitted(RecoverErase);
      SpecUnmoved(before, k);
      LogCrash.CrashAtomicity(lay, init, history);
    }

    /** initlog up to the first disk write: fresh memory, then read_head. */
    method StartUp()
      requires Down() && IsRun(lay, init, history + [Boot])
      requires lay.start < |disk| && 0 <= HeadN(disk[lay.start]) <= LOGSIZE
      requires Enabled(lay, State(disk, None, false), Boot)
      requires Run(lay, init, history + [Boot]) == Apply(lay, State(disk, None, false), Boot)
      modifies this`cache, this`n, this`outstanding, this`committing, this`ops, this`sleepers, this`panicked,
               this`pc, this`history, block
      ensures Up() && pc == (if n > 0 then RecoverInstall(0) else RecoverClear)
      ensures history == old(history) + [Boot] && outstanding == 0
    {
      hide IsRun, Run, LogCrash.Formatted, Apply, Enabled, HeadBlocks, HeadN;
      BootMeans(lay, disk);
      cache, outstanding, committing, panicked, ops, sleepers := map[], 0, false, false, map[], {};
      ReadHead();
      pc := if n > 0 then RecoverInstall(0) else RecoverClear;
      history := history + [Boot];
    }

    lemma SpecUnmoved(before: seq<Label>, k: nat)
      requires IsRun(lay, init, before)
      requires IsRun(lay, init, before + [Boot] + Repeat(RecoverInstallTrans, k) + [RecoverErase])
      ensures SpecRun(lay, init, Spec(init.disk, map[], map[]), before + [Boot] + Repeat(RecoverInstallTrans, k) + [RecoverErase])
           == SpecRun(lay, init, Spec(init.disk, map[], map[]), before)
    {
      hide Enabled, Apply, SpecNext;
      var sp := Spec(init.disk, map[], map[]);
      var more := [Boot] + Repeat(RecoverInstallTrans, k) + [RecoverErase];
      assert before + more == before + [Boot] + Repeat(RecoverInstallTrans, k) + [RecoverErase];
      RunSplit(lay, init, before, more);
      SpecRunConcat(lay, init, sp, before, more);
      SpecRunQuiet(lay, Run(lay, init, before), SpecRun(lay, init, sp, before), more);
    }
  }
}
