/** Crash atomicity and space reservation of the log, over every run of LogMachine. */
module LogCrash {
  import opened LogMachine

  // ----- Reservation -----

  /** Blocks that the operations in progress may still add. */
  ghost function Unused(ops: map<nat, nat>): int
    decreases |ops|
  {
    if ops == map[] then 0 else
      var p :| p in ops;
      MAXOPBLOCKS - ops[p] + Unused(ops - {p})
  }

  lemma {:induction false} UnusedRemove(ops: map<nat, nat>, p: nat)
    requires p in ops
    ensures Unused(ops) == MAXOPBLOCKS - ops[p] + Unused(ops - {p})
    decreases |ops|
  {
    var q :| q in ops && Unused(ops) == MAXOPBLOCKS - ops[q] + Unused(ops - {q});
    if q != p {
      UnusedRemove(ops - {q}, p);
      UnusedRemove(ops - {p}, q);
      assert ops - {q} - {p} == ops - {p} - {q};
    }
  }

  lemma UnusedPut(ops: map<nat, nat>, p: nat, n: nat)
    ensures Unused(ops[p := n]) == MAXOPBLOCKS - n + Unused(ops - {p})
  {
    UnusedRemove(ops[p := n], p);
    assert ops[p := n] - {p} == ops - {p};
  }

  ghost predicate WithinBudget(ops: map<nat, nat>) { forall p :: p in ops ==> ops[p] <= MAXOPBLOCKS }

  lemma {:induction false} UnusedNonNegative(ops: map<nat, nat>)
    requires WithinBudget(ops)
    ensures 0 <= Unused(ops) <= MAXOPBLOCKS * |ops|
    decreases |ops|
  {
    if ops != map[] {
      var p :| p in ops;
      UnusedRemove(ops, p);
      UnusedNonNegative(ops - {p});
      assert ops == (ops - {p})[p := ops[p]];
    }
  }

  // ----- The invariant -----

  ghost predicate Distinct(lh: seq<int>) { forall i, j :: 0 <= i < j < |lh| ==> lh[i] != lh[j] }

  ghost predicate AllHome(lay: Layout, lh: seq<int>) { forall i :: 0 <= i < |lh| ==> lay.Home(lh[i]) }

  ghost predicate HeaderOk(lay: Layout, d: Disk)
    requires lay.Valid() && |d| == lay.size
  {
    var h := d[lay.start];
    && 0 <= HeadN(h) <= LOGSIZE && HeadN(h) <= lay.nlog - 1
    && AllHome(lay, HeadBlocks(h)) && Distinct(HeadBlocks(h))
  }

  ghost predicate Recovers(lay: Layout, d: Disk, durable: Disk)
    requires lay.Valid() && |d| == |durable| == lay.size && HeaderOk(lay, d)
  {
    forall b :: lay.Home(b) ==> RecoverBlock(lay, d, HeadN(d[lay.start]), b) == durable[b]
  }

  ghost predicate SameHome(lay: Layout, d: Disk, e: Disk)
    requires |d| == |e| == lay.size
  {
    forall b :: lay.Home(b) ==> d[b] == e[b]
  }

  /** An unpinned buffer holds what the disk holds, or a stray change. */
  ghost predicate Coherent(lay: Layout, m: Mem, d: Disk, stray: map<int, Block>)
    requires |d| == lay.size
  {
    && (forall b :: b in m.cache ==> lay.Home(b))
    && (forall b :: b in m.cache && b !in m.Pinned() ==> m.cache[b] == if b in stray then stray[b] else d[b])
    && (forall b :: b in stray ==> b in m.cache && b !in m.lh)
  }

  /** The transaction being gathered or copied: its blocks are pinned and hold the last writes. */
  ghost predicate Gathering(m: Mem, sp: Spec) {
    && (forall b :: b in m.lh <==> b in sp.pending)
    && (forall b :: b in sp.pending ==> b in m.cache && m.cache[b] == sp.pending[b])
  }

  ghost predicate CopiesUpTo(lay: Layout, d: Disk, m: Mem, sp: Spec, n: nat)
    requires lay.Valid() && |d| == lay.size
  {
    n <= |m.lh| <= lay.nlog - 1 &&
    forall i :: 0 <= i < n ==> m.lh[i] in sp.pending && d[lay.start + 1 + i] == sp.pending[m.lh[i]]
  }

  ghost predicate InstalledUpTo(lay: Layout, d: Disk, lh: seq<int>, n: nat)
    requires lay.Valid() && |d| == lay.size && |lh| <= lay.nlog - 1 && AllHome(lay, lh)
  {
    n <= |lh| && forall i :: 0 <= i < n ==> d[lh[i]] == d[lay.start + 1 + i]
  }

  ghost predicate PhaseOk(lay: Layout, d: Disk, m: Mem, sp: Spec)
    requires lay.Valid() && |d| == |sp.durable| == lay.size && HeaderOk(lay, d)
    requires |m.lh| <= lay.nlog - 1 && AllHome(lay, m.lh)
  {
    match m.pc
    case Idle => HeadN(d[lay.start]) == 0 && Gathering(m, sp)
    case CopyToLog(t) => HeadN(d[lay.start]) == 0 && Gathering(m, sp) &&
      t < |m.lh| && CopiesUpTo(lay, d, m, sp, t)
    case CommitHead => m.lh != [] && HeadN(d[lay.start]) == 0 && Gathering(m, sp) && CopiesUpTo(lay, d, m, sp, |m.lh|)
    case Install(t) => t < |m.lh| && HeadBlocks(d[lay.start]) == m.lh && sp.pending == map[] &&
      InstalledUpTo(lay, d, m.lh, t)
    case ClearHead => sp.pending == map[] && SameHome(lay, d, sp.durable)
    case Finish => m.lh == [] && sp.pending == map[] && HeadN(d[lay.start]) == 0
    case RecoverInstall(t) => t < |m.lh| && HeadBlocks(d[lay.start]) == m.lh && sp.pending == map[] &&
      InstalledUpTo(lay, d, m.lh, t)
    case RecoverClear => sp.pending == map[] && SameHome(lay, d, sp.durable)
  }

  ghost predicate MemOk(lay: Layout, d: Disk, m: Mem, sp: Spec)
    requires lay.Valid() && |d| == |sp.durable| == lay.size && HeaderOk(lay, d)
  {
    && |m.lh| <= LOGSIZE && |m.lh| <= lay.nlog - 1
    && AllHome(lay, m.lh) && Distinct(m.lh)
    && Coherent(lay, m, d, sp.stray)
    && PhaseOk(lay, d, m, sp)
  }

  /** Counting side: what is logged plus what may still be logged fits, and who sleeps has reason to. */
  ghost predicate Reserved(m: Mem) {
    && WithinBudget(m.ops)
    && |m.lh| + Unused(m.ops) <= LOGSIZE
    && (m.committing <==> m.pc.CopyToLog? || m.pc.CommitHead? || m.pc.Install? || m.pc.ClearHead? || m.pc.Finish?)
    && (!m.pc.Idle? ==> m.ops == map[])
    && (m.pc.Idle? && m.ops == map[] ==> m.lh == [])
    && (m.pc.Finish? ==> m.lh == [])
    && (m.sleepers != {} ==> MustWait(m))
    && (m.pc.RecoverInstall? || m.pc.RecoverClear? ==> m.sleepers == {})
  }

  ghost predicate DiskOk(lay: Layout, s: State, sp: Spec) {
    && lay.Valid() && |s.disk| == |sp.durable| == lay.size
    && HeaderOk(lay, s.disk) && Recovers(lay, s.disk, sp.durable)
    && (s.mem.None? ==> sp.pending == map[] && sp.stray == map[])
  }

  ghost predicate Inv(lay: Layout, s: State, sp: Spec) {
    && DiskOk(lay, s, sp)
    && (s.mem.Some? ==> MemOk(lay, s.disk, s.mem.value, sp) && Reserved(s.mem.value))
  }

  // ----- Recovery, block by block -----

  /** A named block comes from its copy, any other stays as it is. */
  lemma {:induction false} RecoverMeaning(lay: Layout, d: Disk, n: nat, b: int)
    requires lay.Valid() && |d| == lay.size && lay.Home(b)
    requires n <= LOGSIZE && n <= lay.nlog - 1 && Distinct(d[lay.start][1..1 + n])
    ensures forall i :: 1 <= i <= n && d[lay.start][i] == b ==> RecoverBlock(lay, d, n, b) == d[lay.start + i]
    ensures (forall i :: 1 <= i <= n ==> d[lay.start][i] != b) ==> RecoverBlock(lay, d, n, b) == d[b]
  {
    if n > 0 {
      var h := d[lay.start];
      assert forall i :: 1 <= i <= n ==> h[i] == h[1..1 + n][i - 1];
      assert h[1..n] == h[1..1 + n][..n - 1];
      RecoverMeaning(lay, d, n - 1, b);
    }
  }

  lemma RecoverNamed(lay: Layout, d: Disk, n: nat, i: nat)
    requires lay.Valid() && |d| == lay.size
    requires n <= LOGSIZE && n <= lay.nlog - 1 && Distinct(d[lay.start][1..1 + n])
    requires 1 <= i <= n && lay.Home(d[lay.start][i])
    ensures RecoverBlock(lay, d, n, d[lay.start][i]) == d[lay.start + i]
  {
    RecoverMeaning(lay, d, n, d[lay.start][i]);
  }

  lemma RecoverUnnamed(lay: Layout, d: Disk, n: nat, b: int)
    requires lay.Valid() && |d| == lay.size && lay.Home(b)
    requires n <= LOGSIZE && n <= lay.nlog - 1 && Distinct(d[lay.start][1..1 + n])
    requires b !in d[lay.start][1..1 + n]
    ensures RecoverBlock(lay, d, n, b) == d[b]
  {
    assert forall i :: 1 <= i <= n ==> d[lay.start][i] == d[lay.start][1..1 + n][i - 1];
    RecoverMeaning(lay, d, n, b);
  }

  // ----- Steps keep the invariant -----

  lemma ReservedBegin(m: Mem, p: nat)
    requires Reserved(m) && !MustWait(m) && p !in m.ops && m.pc.Idle?
    ensures Reserved(m.(ops := m.ops[p := 0]))
  {
    hide Unused;
    UnusedPut(m.ops, p, 0);
    assert m.ops - {p} == m.ops;
    UnusedNonNegative(m.ops);
  }

  lemma ReservedSleep(m: Mem, p: nat)
    requires Reserved(m) && MustWait(m) && !m.pc.RecoverInstall? && !m.pc.RecoverClear?
    ensures Reserved(m.(sleepers := m.sleepers + {p}))
  {
    hide Unused;
  }

  lemma ReservedAdd(m: Mem, p: nat, b: int)
    requires Reserved(m) && p in m.ops && m.ops[p] < MAXOPBLOCKS
    ensures Reserved(m.(lh := m.lh + [b], ops := m.ops[p := m.ops[p] + 1]))
  {
    UnusedRemove(m.ops, p);
    UnusedPut(m.ops, p, m.ops[p] + 1);
    assert |m.ops[p := m.ops[p] + 1]| == |m.ops|;
  }

  lemma ReservedEnd(lay: Layout, s: State, p: nat)
    requires s.mem.Some? && Reserved(s.mem.value) && p in s.mem.value.ops
    ensures !DoEndOp(s, p).panicked || s.panicked
    ensures Reserved(DoEndOp(s, p).mem.value)
  {
    var m := s.mem.value;
    UnusedRemove(m.ops, p);
    hide Unused;
    assert |m.ops - {p}| == 0 ==> m.ops - {p} == map[];
  }

  /** Writing a block to the disk, reading and dropping one do not touch the count. */
  lemma ReservedElse(lay: Layout, s: State, l: Label)
    requires s.mem.Some? && Reserved(s.mem.value) && Enabled(lay, s, l) && !l.Crash? && !l.Boot?
    requires !l.BeginOp? && !l.LogWrite? && !l.EndOp?
    ensures Apply(lay, s, l).mem.Some? && Reserved(Apply(lay, s, l).mem.value)
  {
    hide Unused, HeadBlock, HeadBlocks;
  }

  lemma ReservedKept(lay: Layout, s: State, l: Label)
    requires s.mem.Some? && Reserved(s.mem.value) && Enabled(lay, s, l)
    requires Apply(lay, s, l).mem.Some? && !Apply(lay, s, l).panicked
    ensures Reserved(Apply(lay, s, l).mem.value)
  {
    hide Unused, DoEndOp;
    var m := s.mem.value;
    if l.BeginOp? {
      if !MustWait(m) {
        ReservedBegin(m, l.p);
      } else {
        ReservedSleep(m, l.p);
      }
    } else if l.LogWrite? {
      if l.b !in m.lh {
        ReservedAdd(m, l.p, l.b);
      }
    } else if l.EndOp? {
      ReservedEnd(lay, s, l.p);
    } else if l.Boot? {
    } else {
      ReservedElse(lay, s, l);
    }
  }

  /** Nothing panics while the log has room for LOGSIZE copies and no operation logs a block after its tenth. */
  lemma NoPanic(lay: Layout, s: State, sp: Spec, l: Label)
    requires Inv(lay, s, sp) && Enabled(lay, s, l) && LOGSIZE + 1 <= lay.nlog
    requires l.LogWrite? ==> s.mem.value.ops[l.p] < MAXOPBLOCKS
    ensures !Apply(lay, s, l).panicked
  {
    hide HeaderOk, Recovers, MemOk, Unused;
    match l {
      case LogWrite(p, b) => RoomLeft(s.mem.value, p);
      case EndOp(p) => ReservedEnd(lay, s, p);
      case _ =>
    }
  }

  /** As long as one operation may add a block, the log is not full. */
  lemma RoomLeft(m: Mem, p: nat)
    requires Reserved(m) && p in m.ops && m.ops[p] < MAXOPBLOCKS
    ensures |m.lh| < LOGSIZE
  {
    UnusedRemove(m.ops, p);
    assert WithinBudget(m.ops - {p});
    UnusedNonNegative(m.ops - {p});
  }

  /** log_write panics exactly on a full log, whether it would add a block or not; with room for LOGSIZE
      copies that strikes only a block which is logged already, by an operation that has added all its blocks. */
  lemma PanicMeans(lay: Layout, s: State, sp: Spec, l: Label)
    requires Inv(lay, s, sp) && Enabled(lay, s, l)
    ensures Apply(lay, s, l).panicked <==> l.LogWrite? && |s.mem.value.lh| >= lay.Capacity()
    ensures Apply(lay, s, l).panicked && LOGSIZE + 1 <= lay.nlog ==>
      |s.mem.value.lh| == LOGSIZE && l.b in s.mem.value.lh && s.mem.value.ops[l.p] == MAXOPBLOCKS
  {
    if l.LogWrite? && LOGSIZE + 1 <= lay.nlog && s.mem.value.ops[l.p] < MAXOPBLOCKS {
      NoPanic(lay, s, sp, l);
    }
  }

  lemma RecoversIfHomeKept(lay: Layout, d: Disk, d': Disk, durable: Disk)
    requires lay.Valid() && |d| == |d'| == |durable| == lay.size
    requires HeaderOk(lay, d) && Recovers(lay, d, durable) && d'[lay.start] == d[lay.start]
    requires forall x :: lay.start < x <= lay.start + HeadN(d[lay.start]) ==> d'[x] == d[x]
    requires forall b :: lay.Home(b) && d'[b] != d[b] ==> b in HeadBlocks(d[lay.start])
    ensures HeaderOk(lay, d') && Recovers(lay, d', durable)
  {
    var h := d[lay.start];
    var n := HeadN(h);
    assert forall i :: 1 <= i <= n ==> h[i] == HeadBlocks(h)[i - 1];
    forall b | lay.Home(b) ensures RecoverBlock(lay, d', n, b) == durable[b] {
      RecoverMeaning(lay, d, n, b);
      RecoverMeaning(lay, d', n, b);
      if i :| 1 <= i <= n && h[i] == b {
        assert RecoverBlock(lay, d', n, b) == d'[lay.start + i];
      }
    }
  }

  lemma CoherentAway(lay: Layout, m: Mem, pc: Pc, d: Disk, x: nat, v: Block, stray: map<int, Block>)
    requires lay.Valid() && |d| == lay.size && x < |d| && !lay.Home(x)
    requires Coherent(lay, m, d, stray) && m.(pc := pc).Pinned() == m.Pinned()
    ensures Coherent(lay, m.(pc := pc), d[x := v], stray)
  {
  }

  lemma WriteLogKept(lay: Layout, s: State, sp: Spec)
    requires Inv(lay, s, sp) && Enabled(lay, s, WriteLog)
    ensures Inv(lay, Apply(lay, s, WriteLog), sp)
  {
    hide Unused, RecoverBlock, Recovers, Coherent;
    var m := s.mem.value;
    var s' := Apply(lay, s, WriteLog);
    var x := lay.start + 1 + m.pc.tail;
    assert !lay.Home(x) && s'.disk[lay.start] == s.disk[lay.start];
    assert View(s, m.lh[m.pc.tail]) == sp.pending[m.lh[m.pc.tail]];
    assert s'.disk == s.disk[x := View(s, m.lh[m.pc.tail])];
    RecoversIfHomeKept(lay, s.disk, s'.disk, sp.durable);
    CoherentAway(lay, m, s'.mem.value.pc, s.disk, x, s'.disk[x], sp.stray);
    ReservedKept(lay, s, WriteLog);
  }

  lemma HeadBlockMeaning(h: Block, lh: seq<int>)
    requires |lh| <= LOGSIZE
    ensures HeadN(HeadBlock(h, lh)) == |lh| && HeadBlocks(HeadBlock(h, lh)) == lh
  {
  }

  lemma UnnamedRecovers(lay: Layout, d: Disk, durable: Disk)
    requires lay.Valid() && |d| == |durable| == lay.size && HeaderOk(lay, d) && HeadN(d[lay.start]) == 0
    requires Recovers(lay, d, durable)
    ensures SameHome(lay, d, durable)
  {
    forall b | lay.Home(b) ensures d[b] == durable[b] {
      assert RecoverBlock(lay, d, 0, b) == d[b];
    }
  }

  /** The commit point: one block write turns the pending transaction durable. */
  lemma WriteHeadRecovers(lay: Layout, m: Mem, d: Disk, sp: Spec)
    requires lay.Valid() && |d| == |sp.durable| == lay.size && HeaderOk(lay, d) && HeadN(d[lay.start]) == 0
    requires |m.lh| <= LOGSIZE && |m.lh| <= lay.nlog - 1 && AllHome(lay, m.lh) && Distinct(m.lh)
    requires Gathering(m, sp) && CopiesUpTo(lay, d, m, sp, |m.lh|) && Recovers(lay, d, sp.durable)
    ensures var d' := d[lay.start := HeadBlock(d[lay.start], m.lh)];
            HeaderOk(lay, d') && Recovers(lay, d', Overlay(sp.durable, sp.pending))
  {
    hide HeadBlock, RecoverBlock;
    var d' := d[lay.start := HeadBlock(d[lay.start], m.lh)];
    HeadBlockMeaning(d[lay.start], m.lh);
    UnnamedRecovers(lay, d, sp.durable);
    forall b | lay.Home(b)
      ensures RecoverBlock(lay, d', |m.lh|, b) == Overlay(sp.durable, sp.pending)[b]
    {
      CommittedBlock(lay, m, d, d', sp, b);
    }
  }

  lemma CommittedBlock(lay: Layout, m: Mem, d: Disk, d': Disk, sp: Spec, b: int)
    requires lay.Valid() && |d| == |d'| == |sp.durable| == lay.size && lay.Home(b) && SameHome(lay, d, sp.durable)
    requires |m.lh| <= LOGSIZE && |m.lh| <= lay.nlog - 1 && Distinct(m.lh)
    requires Gathering(m, sp) && CopiesUpTo(lay, d, m, sp, |m.lh|)
    requires d'[lay.start][1..1 + |m.lh|] == m.lh && d' == d[lay.start := d'[lay.start]]
    ensures RecoverBlock(lay, d', |m.lh|, b) == Overlay(sp.durable, sp.pending)[b]
  {
    hide RecoverBlock, Distinct;
    if b in sp.pending {
      var i :| 0 <= i < |m.lh| && m.lh[i] == b;
      hide Gathering, SameHome;
      assert d[lay.start + 1 + i] == sp.pending[b];
      hide CopiesUpTo;
      NamedBlock(lay, d, d', m.lh, i);
    } else {
      assert b !in m.lh;
      hide Gathering, CopiesUpTo;
      RecoverUnnamed(lay, d', |m.lh|, b);
    }
  }

  lemma NamedBlock(lay: Layout, d: Disk, d': Disk, lh: seq<int>, i: nat)
    requires lay.Valid() && |d| == |d'| == lay.size && |lh| <= LOGSIZE && |lh| <= lay.nlog - 1 && Distinct(lh)
    requires i < |lh| && lay.Home(lh[i])
    requires d'[lay.start][1..1 + |lh|] == lh && d' == d[lay.start := d'[lay.start]]
    ensures RecoverBlock(lay, d', |lh|, lh[i]) == d[lay.start + 1 + i]
  {
    hide RecoverBlock, Distinct;
    assert d'[lay.start][i + 1] == d'[lay.start][1..1 + |lh|][i];
    RecoverNamed(lay, d', |lh|, i + 1);
  }

  /** What is known before the header is written. */
  lemma HeadFacts(lay: Layout, d: Disk, m: Mem, sp: Spec)
    requires lay.Valid() && |d| == |sp.durable| == lay.size && HeaderOk(lay, d) && MemOk(lay, d, m, sp) && m.pc.CommitHead?
    ensures 0 < |m.lh| <= LOGSIZE && |m.lh| <= lay.nlog - 1 && AllHome(lay, m.lh) && Distinct(m.lh)
    ensures Coherent(lay, m, d, sp.stray) && Gathering(m, sp) && CopiesUpTo(lay, d, m, sp, |m.lh|) && HeadN(d[lay.start]) == 0
  {
    hide Distinct, Coherent, AllHome, HeaderOk, Gathering, CopiesUpTo;
  }

  lemma WriteHeadMem(lay: Layout, d: Disk, m: Mem, sp: Spec)
    requires lay.Valid() && |d| == |sp.durable| == lay.size && HeaderOk(lay, d) && Recovers(lay, d, sp.durable)
    requires MemOk(lay, d, m, sp) && m.pc.CommitHead? && |m.lh| <= LOGSIZE
    ensures var d', sp' := d[lay.start := HeadBlock(d[lay.start], m.lh)], Spec(Overlay(sp.durable, sp.pending), map[], sp.stray);
            HeaderOk(lay, d') && Recovers(lay, d', sp'.durable) && MemOk(lay, d', m.(pc := Install(0)), sp')
  {
    hide Distinct, Coherent, AllHome, HeaderOk, Recovers, Gathering, CopiesUpTo, Overlay, HeadBlock, HeadBlocks;
    HeadFacts(lay, d, m, sp);
    WriteHeadRecovers(lay, m, d, sp);
    HeadBlockMeaning(d[lay.start], m.lh);
    assert m.(pc := Install(0)).Pinned() == m.Pinned();
    CoherentAway(lay, m, Install(0), d, lay.start, HeadBlock(d[lay.start], m.lh), sp.stray);
  }

  lemma WriteHeadKept(lay: Layout, s: State, sp: Spec)
    requires Inv(lay, s, sp) && Enabled(lay, s, WriteHead)
    ensures Inv(lay, Apply(lay, s, WriteHead), SpecNext(lay, s, sp, WriteHead))
  {
    hide Unused, Recovers, Reserved, HeaderOk, MemOk, Overlay, HeadBlock;
    WriteHeadMem(lay, s.disk, s.mem.value, sp);
    ReservedKept(lay, s, WriteHead);
  }

  /** Once all copies are home, the home blocks are the durable ones. */
  lemma AllInstalled(lay: Layout, d: Disk, durable: Disk)
    requires lay.Valid() && |d| == |durable| == lay.size && HeaderOk(lay, d) && Recovers(lay, d, durable)
    requires InstalledUpTo(lay, d, HeadBlocks(d[lay.start]), HeadN(d[lay.start]))
    ensures SameHome(lay, d, durable)
  {
    var h := d[lay.start];
    var n := HeadN(h);
    assert forall i :: 1 <= i <= n ==> h[i] == HeadBlocks(h)[i - 1];
    forall b | lay.Home(b) ensures d[b] == durable[b] {
      RecoverMeaning(lay, d, n, b);
      if i :| 1 <= i <= n && h[i] == b {
        assert d[HeadBlocks(h)[i - 1]] == d[lay.start + 1 + (i - 1)];
      }
    }
  }

  /** One block of m less is pinned, at most. */
  lemma InstallPinned(m: Mem, v: Block)
    requires (m.pc.Install? || m.pc.RecoverInstall?) && m.pc.tail < |m.lh|
    ensures var m' := AfterInstall(m.(cache := m.cache[m.lh[m.pc.tail] := v]), m.pc.tail + 1);
            && m'.cache == m.cache[m.lh[m.pc.tail] := v] && m'.lh == m.lh
            && forall b :: b in m.Pinned() && b != m.lh[m.pc.tail] ==> b in m'.Pinned()
  {
    var m' := AfterInstall(m.(cache := m.cache[m.lh[m.pc.tail] := v]), m.pc.tail + 1);
    if m.pc.Install? {
      var t := m.pc.tail;
      assert m.lh[t..] == [m.lh[t]] + m.lh[t + 1..];
      assert m'.Pinned() == m.lh[t + 1..];
    } else {
      assert m'.Pinned() == m.Pinned();
    }
  }

  lemma InstallCoherent(lay: Layout, m: Mem, d: Disk, v: Block, stray: map<int, Block>)
    requires lay.Valid() && |d| == lay.size && Coherent(lay, m, d, stray)
    requires (m.pc.Install? || m.pc.RecoverInstall?) && m.pc.tail < |m.lh| && lay.Home(m.lh[m.pc.tail])
    ensures var b := m.lh[m.pc.tail];
            Coherent(lay, AfterInstall(m.(cache := m.cache[b := v]), m.pc.tail + 1), d[b := v], stray)
  {
    hide AfterInstall;
    var x := m.lh[m.pc.tail];
    var m' := AfterInstall(m.(cache := m.cache[x := v]), m.pc.tail + 1);
    InstallPinned(m, v);
    hide Mem.Pinned;
    assert x !in stray;
    forall b | b in m'.cache && b !in m'.Pinned() && b != x
      ensures m'.cache[b] == if b in stray then stray[b] else d[x := v][b]
    {
      assert b in m.cache && b !in m.Pinned() && lay.Home(b);
    }
  }

  lemma InstallOneMore(lay: Layout, d: Disk, lh: seq<int>, t: nat)
    requires lay.Valid() && |d| == lay.size && |lh| <= lay.nlog - 1 && AllHome(lay, lh) && Distinct(lh)
    requires t < |lh| && InstalledUpTo(lay, d, lh, t)
    ensures InstalledUpTo(lay, d[lh[t] := d[lay.start + 1 + t]], lh, t + 1)
  {
  }

  /** What is known before one block is installed. */
  lemma InstallFacts(lay: Layout, d: Disk, m: Mem, sp: Spec)
    requires lay.Valid() && |d| == |sp.durable| == lay.size && HeaderOk(lay, d) && MemOk(lay, d, m, sp)
    requires m.pc.Install? || m.pc.RecoverInstall?
    ensures m.pc.tail < |m.lh| <= LOGSIZE && |m.lh| <= lay.nlog - 1 && sp.pending == map[]
    ensures AllHome(lay, m.lh) && lay.Home(m.lh[m.pc.tail]) && Distinct(m.lh) && Coherent(lay, m, d, sp.stray)
    ensures HeadBlocks(d[lay.start]) == m.lh && InstalledUpTo(lay, d, m.lh, m.pc.tail)
  {
    hide Distinct, Coherent;
  }

  lemma InstallRecovers(lay: Layout, d: Disk, lh: seq<int>, t: nat, durable: Disk)
    requires lay.Valid() && |d| == |durable| == lay.size && HeaderOk(lay, d) && Recovers(lay, d, durable)
    requires t < |lh| <= lay.nlog - 1 && lay.Home(lh[t]) && HeadBlocks(d[lay.start]) == lh
    ensures var d' := d[lh[t] := d[lay.start + 1 + t]];
            HeaderOk(lay, d') && Recovers(lay, d', durable) && d'[lay.start] == d[lay.start]
  {
    hide RecoverBlock, Recovers, Distinct, AllHome;
    RecoversIfHomeKept(lay, d, d[lh[t] := d[lay.start + 1 + t]], durable);
  }

  lemma HeadLength(lay: Layout, d: Disk)
    requires lay.Valid() && |d| == lay.size && HeaderOk(lay, d)
    ensures 0 <= HeadN(d[lay.start]) <= LOGSIZE && |HeadBlocks(d[lay.start])| == HeadN(d[lay.start])
  {
    hide Distinct, AllHome;
  }

  /** The place in the commit or in the recovery after one more block. */
  lemma InstallPhase(lay: Layout, d: Disk, m: Mem, m': Mem, sp: Spec)
    requires lay.Valid() && |d| == |sp.durable| == lay.size && HeaderOk(lay, d) && Recovers(lay, d, sp.durable)
    requires (m.pc.Install? || m.pc.RecoverInstall?) && m.pc.tail < |m.lh| <= LOGSIZE && |m.lh| <= lay.nlog - 1
    requires AllHome(lay, m.lh) && Distinct(m.lh) && HeadBlocks(d[lay.start]) == m.lh && sp.pending == map[]
    requires InstalledUpTo(lay, d, m.lh, m.pc.tail + 1) && Coherent(lay, m', d, sp.stray)
    requires m' == AfterInstall(m.(cache := m'.cache), m.pc.tail + 1)
    ensures MemOk(lay, d, m', sp)
  {
    hide RecoverBlock, Recovers, Coherent, HeaderOk, InstalledUpTo, SameHome, Distinct, AllHome;
    HeadLength(lay, d);
    if m.pc.tail + 1 == |m.lh| {
      AllInstalled(lay, d, sp.durable);
    }
  }

  lemma InstallMem(lay: Layout, d: Disk, m: Mem, sp: Spec)
    requires lay.Valid() && |d| == |sp.durable| == lay.size && HeaderOk(lay, d) && Recovers(lay, d, sp.durable)
    requires MemOk(lay, d, m, sp) && (m.pc.Install? || m.pc.RecoverInstall?) && m.pc.tail < |m.lh|
    requires lay.start + 1 + m.pc.tail < |d| && 0 <= m.lh[m.pc.tail] < |d|
    ensures var b, v := m.lh[m.pc.tail], d[lay.start + 1 + m.pc.tail];
            && HeaderOk(lay, d[b := v]) && Recovers(lay, d[b := v], sp.durable)
            && MemOk(lay, d[b := v], AfterInstall(m.(cache := m.cache[b := v]), m.pc.tail + 1), sp)
  {
    hide RecoverBlock, Recovers, Coherent, HeaderOk, InstalledUpTo, SameHome, Distinct, AllHome, MemOk, AfterInstall, HeadBlocks;
    var b, v := m.lh[m.pc.tail], d[lay.start + 1 + m.pc.tail];
    InstallFacts(lay, d, m, sp);
    InstallRecovers(lay, d, m.lh, m.pc.tail, sp.durable);
    InstallPinned(m, v);
    InstallCoherent(lay, m, d, v, sp.stray);
    InstallOneMore(lay, d, m.lh, m.pc.tail);
    InstallPhase(lay, d[b := v], m, AfterInstall(m.(cache := m.cache[b := v]), m.pc.tail + 1), sp);
  }

  lemma InstallApplied(lay: Layout, s: State, l: Label)
    requires (l == InstallTrans || l == RecoverInstallTrans) && Enabled(lay, s, l)
    ensures var m := s.mem.value;
            && (m.pc.Install? || m.pc.RecoverInstall?) && m.pc.tail < |m.lh| && lay.start + 1 + m.pc.tail < |s.disk|
            && 0 <= m.lh[m.pc.tail] < |s.disk|
            && var b, v := m.lh[m.pc.tail], s.disk[lay.start + 1 + m.pc.tail];
            Apply(lay, s, l) == State(s.disk[b := v], Some(AfterInstall(m.(cache := m.cache[b := v]), m.pc.tail + 1)), s.panicked)
  {
  }

  lemma InstallKept(lay: Layout, s: State, sp: Spec, l: Label)
    requires l == InstallTrans || l == RecoverInstallTrans
    requires Inv(lay, s, sp) && Enabled(lay, s, l)
    ensures Inv(lay, Apply(lay, s, l), sp)
  {
    hide Unused, Recovers, Reserved, HeaderOk, MemOk, AfterInstall, Apply, EnabledUp;
    InstallApplied(lay, s, l);
    ReservedKept(lay, s, l);
    InstallMem(lay, s.disk, s.mem.value, sp);
  }

  lemma EraseKept(lay: Layout, s: State, sp: Spec, l: Label)
    requires l == EraseHead || l == RecoverErase
    requires Inv(lay, s, sp) && Enabled(lay, s, l)
    ensures Inv(lay, Apply(lay, s, l), sp)
  {
    ReservedKept(lay, s, l);
  }

  lemma NothingPending(m: Mem, sp: Spec)
    requires m.lh == [] && Gathering(m, sp)
    ensures sp.pending == map[]
  {
    assert forall b :: b in sp.pending ==> b in m.lh;
  }

  /** log_write takes the block as the cache has it. */
  lemma LoggedMem(lay: Layout, d: Disk, m: Mem, m': Mem, sp: Spec, b: int)
    requires lay.Valid() && |d| == |sp.durable| == lay.size && HeaderOk(lay, d) && MemOk(lay, d, m, sp)
    requires m.pc.Idle? && !Full(lay, m) && lay.Home(b) && b in m.cache && b !in m.lh && SameHome(lay, d, sp.durable)
    requires m'.cache == m.cache && m'.pc == m.pc && m'.lh == m.lh + [b]
    ensures MemOk(lay, d, m', Spec(sp.durable, sp.pending[b := Seen(sp)[b]], sp.stray - {b}))
  {
    hide HeaderOk;
    assert forall x :: x in m'.lh <==> x in m.lh || x == b;
    assert b !in sp.pending && m.cache[b] == Seen(sp)[b];
  }

  lemma LogWriteKept(lay: Layout, s: State, sp: Spec, p: nat, b: int)
    requires Inv(lay, s, sp) && Enabled(lay, s, LogWrite(p, b)) && !Full(lay, s.mem.value)
    ensures Inv(lay, Apply(lay, s, LogWrite(p, b)), SpecNext(lay, s, sp, LogWrite(p, b)))
  {
    ReservedKept(lay, s, LogWrite(p, b));
    var m := s.mem.value;
    IdleHome(lay, s, sp);
    if b !in m.lh {
      LoggedMem(lay, s.disk, m, Apply(lay, s, LogWrite(p, b)).mem.value, sp, b);
    }
    hide Unused, RecoverBlock, Recovers, Reserved, MemOk, HeaderOk, Seen;
  }

  /** Between commits the home blocks are the durable ones, and the header names what is pending. */
  lemma IdleHome(lay: Layout, s: State, sp: Spec)
    requires Inv(lay, s, sp) && s.mem.Some? && (s.mem.value.pc.Idle? || s.mem.value.ops != map[])
    ensures s.mem.value.pc.Idle? && SameHome(lay, s.disk, sp.durable)
    ensures forall b :: b in s.mem.value.lh <==> b in sp.pending
  {
    UnnamedRecovers(lay, s.disk, sp.durable);
    hide Unused, RecoverBlock, Recovers;
  }

  /** A change of a buffer reaches the transaction exactly when the block is in it. */
  lemma ModifiedMem(lay: Layout, d: Disk, m: Mem, sp: Spec, b: int, data: Block)
    requires lay.Valid() && |d| == |sp.durable| == lay.size && HeaderOk(lay, d) && MemOk(lay, d, m, sp)
    requires m.pc.Idle? && lay.Home(b) && b in m.cache
    ensures MemOk(lay, d, m.(cache := m.cache[b := data]),
                  if b in sp.pending then sp.(pending := sp.pending[b := data]) else sp.(stray := sp.stray[b := data]))
  {
    hide HeaderOk;
  }

  lemma ModifyKept(lay: Layout, s: State, sp: Spec, p: nat, b: int, data: Block)
    requires Inv(lay, s, sp) && Enabled(lay, s, Modify(p, b, data))
    ensures Inv(lay, Apply(lay, s, Modify(p, b, data)), SpecNext(lay, s, sp, Modify(p, b, data)))
  {
    ReservedKept(lay, s, Modify(p, b, data));
    IdleHome(lay, s, sp);
    ModifiedMem(lay, s.disk, s.mem.value, sp, b, data);
    hide Unused, RecoverBlock, Recovers, Reserved, MemOk, HeaderOk;
  }

  lemma CommitStarts(lay: Layout, d: Disk, m: Mem, sp: Spec, ops: map<nat, nat>)
    requires lay.Valid() && |d| == |sp.durable| == lay.size && HeaderOk(lay, d) && MemOk(lay, d, m, sp) && m.pc.Idle?
    ensures MemOk(lay, d, m.(ops := ops, committing := true, pc := if |m.lh| > 0 then CopyToLog(0) else Finish), sp)
  {
    hide HeaderOk;
    var m' := m.(ops := ops, committing := true, pc := if |m.lh| > 0 then CopyToLog(0) else Finish);
    assert m'.Pinned() == m.Pinned();
    hide AllHome, Distinct;
    if m.lh == [] {
      NothingPending(m, sp);
    }
  }

  lemma EndOpKept(lay: Layout, s: State, sp: Spec, p: nat)
    requires Inv(lay, s, sp) && Enabled(lay, s, EndOp(p))
    ensures Inv(lay, Apply(lay, s, EndOp(p)), sp) && !Apply(lay, s, EndOp(p)).panicked
  {
    IdleHome(lay, s, sp);
    hide Unused, RecoverBlock, Recovers, MemOk, HeaderOk;
    ReservedEnd(lay, s, p);
    var m := s.mem.value;
    CommitStarts(lay, s.disk, m, sp, m.ops - {p});
    MemOkIgnoresOps(lay, s.disk, m, sp, m.ops - {p}, {});
  }

  lemma CoherentLoad(lay: Layout, m: Mem, d: Disk, b: int, stray: map<int, Block>)
    requires |d| == lay.size && Coherent(lay, m, d, stray) && lay.Home(b) && b !in m.cache
    ensures Coherent(lay, m.(cache := m.cache[b := d[b]]), d, stray)
  {
    assert m.(cache := m.cache[b := d[b]]).Pinned() == m.Pinned();
  }

  /** Other processes may read and drop blocks as they like, as long as pinned ones stay. */
  lemma MemOkCache(lay: Layout, d: Disk, m: Mem, sp: Spec, cache: map<int, Block>, stray: map<int, Block>)
    requires lay.Valid() && |d| == |sp.durable| == lay.size && HeaderOk(lay, d) && MemOk(lay, d, m, sp)
    requires Coherent(lay, m.(cache := cache), d, stray)
    requires forall b :: b in m.lh && b in m.cache && b in m.Pinned() ==> b in cache && cache[b] == m.cache[b]
    ensures MemOk(lay, d, m.(cache := cache), sp.(stray := stray))
  {
    hide HeaderOk, Coherent, Distinct, AllHome, SameHome, InstalledUpTo;
  }

  lemma LoadKept(lay: Layout, s: State, sp: Spec, b: int)
    requires Inv(lay, s, sp) && Enabled(lay, s, Load(b))
    ensures Inv(lay, Apply(lay, s, Load(b)), sp)
  {
    ReservedKept(lay, s, Load(b));
    hide Unused, RecoverBlock, Recovers, Reserved, HeaderOk;
    var m := s.mem.value;
    CoherentLoad(lay, m, s.disk, b, sp.stray);
    MemOkCache(lay, s.disk, m, sp, m.cache[b := s.disk[b]], sp.stray);
    hide MemOk;
  }

  lemma EvictKept(lay: Layout, s: State, sp: Spec, b: int)
    requires Inv(lay, s, sp) && Enabled(lay, s, Evict(b))
    ensures Inv(lay, Apply(lay, s, Evict(b)), SpecNext(lay, s, sp, Evict(b)))
  {
    ReservedKept(lay, s, Evict(b));
    hide Unused, RecoverBlock, Recovers, Reserved, HeaderOk;
    var m := s.mem.value;
    assert m.(cache := m.cache - {b}).Pinned() == m.Pinned();
    MemOkCache(lay, s.disk, m, sp, m.cache - {b}, sp.stray - {b});
    hide MemOk;
  }

  lemma MemOkIgnoresOps(lay: Layout, d: Disk, m: Mem, sp: Spec, ops: map<nat, nat>, sleepers: set<nat>)
    requires lay.Valid() && |d| == |sp.durable| == lay.size && HeaderOk(lay, d) && MemOk(lay, d, m, sp)
    ensures MemOk(lay, d, m.(ops := ops, sleepers := sleepers), sp)
  {
    hide HeaderOk;
    assert m.(ops := ops, sleepers := sleepers).Pinned() == m.Pinned();
  }

  lemma BeginOpKept(lay: Layout, s: State, sp: Spec, p: nat)
    requires Inv(lay, s, sp) && Enabled(lay, s, BeginOp(p))
    ensures Inv(lay, Apply(lay, s, BeginOp(p)), sp)
  {
    ReservedKept(lay, s, BeginOp(p));
    var m' := Apply(lay, s, BeginOp(p)).mem.value;
    MemOkIgnoresOps(lay, s.disk, s.mem.value, sp, m'.ops, m'.sleepers);
    hide Unused, RecoverBlock, Recovers, Reserved, MustWait, HeaderOk, MemOk;
  }

  lemma WakeAllKept(lay: Layout, s: State, sp: Spec)
    requires Inv(lay, s, sp) && Enabled(lay, s, WakeAll)
    ensures Inv(lay, Apply(lay, s, WakeAll), sp)
  {
    ReservedKept(lay, s, WakeAll);
    hide Unused, RecoverBlock, Recovers, Reserved, MustWait, HeaderOk, Distinct, AllHome;
    assert Apply(lay, s, WakeAll).mem.value.Pinned() == s.mem.value.Pinned();
  }

  /** Panicking stops the machine and changes nothing that recovery needs. */
  lemma PanicKept(lay: Layout, s: State, sp: Spec, l: Label)
    requires Inv(lay, s, sp) && Enabled(lay, s, l) && l.LogWrite? && Full(lay, s.mem.value)
    ensures Apply(lay, s, l) == s.(panicked := true) && SpecNext(lay, s, sp, l) == sp
    ensures Inv(lay, Apply(lay, s, l), sp)
  {
    hide Reserved, MemOk;
  }

  lemma PowerStepKept(lay: Layout, s: State, sp: Spec, l: Label)
    requires l == Crash || l == Boot
    requires Inv(lay, s, sp) && Enabled(lay, s, l)
    ensures Inv(lay, Apply(lay, s, l), SpecNext(lay, s, sp, l))
  {
    if l == Boot && HeadN(s.disk[lay.start]) == 0 {
      assert forall b :: lay.Home(b) ==> RecoverBlock(lay, s.disk, 0, b) == s.disk[b];
    }
  }

  lemma StepKept(lay: Layout, s: State, sp: Spec, l: Label)
    requires Inv(lay, s, sp) && Enabled(lay, s, l)
    ensures Inv(lay, Apply(lay, s, l), SpecNext(lay, s, sp, l))
  {
    hide Apply, Inv, EnabledUp, Overlay, Seen;
    match l {
      case WriteLog => WriteLogKept(lay, s, sp);
      case WriteHead => WriteHeadKept(lay, s, sp);
      case InstallTrans => InstallKept(lay, s, sp, l);
      case RecoverInstallTrans => InstallKept(lay, s, sp, l);
      case EraseHead => EraseKept(lay, s, sp, l);
      case RecoverErase => EraseKept(lay, s, sp, l);
      case Crash => PowerStepKept(lay, s, sp, l);
      case Boot => PowerStepKept(lay, s, sp, l);
      case Modify(p, b, data) => ModifyKept(lay, s, sp, p, b, data);
      case LogWrite(p, b) =>
        if Full(lay, s.mem.value) {
          PanicKept(lay, s, sp, l);
        } else {
          LogWriteKept(lay, s, sp, p, b);
        }
      case EndOp(p) => EndOpKept(lay, s, sp, p);
      case BeginOp(p) => BeginOpKept(lay, s, sp, p);
      case WakeAll => WakeAllKept(lay, s, sp);
      case Load(b) => LoadKept(lay, s, sp, b);
      case Evict(b) => EvictKept(lay, s, sp, b);
    }
  }

  // ----- Whole runs -----

  /** A formatted disk: the header names nothing. */
  ghost predicate Formatted(lay: Layout, s: State, sp: Spec) {
    && lay.Valid() && |s.disk| == lay.size && HeadN(s.disk[lay.start]) == 0
    && s.mem.None? && !s.panicked && sp == Spec(s.disk, map[], map[])
  }

  lemma FormattedInv(lay: Layout, s: State)
    requires Formatted(lay, s, Spec(s.disk, map[], map[]))
    ensures Inv(lay, s, Spec(s.disk, map[], map[]))
  {
    assert forall b :: lay.Home(b) ==> RecoverBlock(lay, s.disk, 0, b) == s.disk[b];
  }

  /** Every run, with panics and crashes wherever they fall, keeps recovery equal to the committed
      transactions. */
  lemma {:induction false} RunKept(lay: Layout, s: State, sp: Spec, ls: seq<Label>)
    requires Inv(lay, s, sp) && IsRun(lay, s, ls)
    ensures Inv(lay, Run(lay, s, ls), SpecRun(lay, s, sp, ls))
    decreases |ls|
  {
    hide Inv, Apply, Enabled, SpecNext;
    if ls != [] {
      StepKept(lay, s, sp, ls[0]);
      RunKept(lay, Apply(lay, s, ls[0]), SpecNext(lay, s, sp, ls[0]), ls[1..]);
    }
  }

  /** What a caller of the log is promised at any point of any run from a formatted disk. */
  lemma CrashAtomicity(lay: Layout, s: State, ls: seq<Label>)
    requires Formatted(lay, s, Spec(s.disk, map[], map[])) && IsRun(lay, s, ls)
    ensures var t := Run(lay, s, ls);
            var sp := SpecRun(lay, s, Spec(s.disk, map[], map[]), ls);
            && |t.disk| == |sp.durable| == lay.size && HeaderOk(lay, t.disk)
            // A crash now, followed by recovery, yields exactly the committed transactions.
            && (forall b :: lay.Home(b) ==> RecoverBlock(lay, t.disk, HeadN(t.disk[lay.start]), b) == sp.durable[b])
            // While the log is idle every home block already is the committed one, and readers see the
            // pending writes on top of it, and on those the stray ones.
            && (t.mem.Some? && t.mem.value.pc.Idle? ==> forall b :: lay.Home(b) ==>
                  t.disk[b] == sp.durable[b] && View(t, b) == Seen(sp)[b])
  {
    var sp := Spec(s.disk, map[], map[]);
    FormattedInv(lay, s);
    RunKept(lay, s, sp, ls);
    var t := Run(lay, s, ls);
    var sp' := SpecRun(lay, s, sp, ls);
    if t.mem.Some? && t.mem.value.pc.Idle? {
      var m := t.mem.value;
      forall b | lay.Home(b) ensures t.disk[b] == sp'.durable[b] && View(t, b) == Seen(sp')[b] {
        assert RecoverBlock(lay, t.disk, 0, b) == t.disk[b];
        assert b in sp'.pending <==> b in m.Pinned();
      }
    }
  }

  /** What is not given to log_write reaches no committed transaction, and so no recovered disk, until somebody
      gives that block to log_write. */
  lemma {:induction false} OnlyLogged(lay: Layout, s: State, sp: Spec, ls: seq<Label>, b: int)
    requires Inv(lay, s, sp) && IsRun(lay, s, ls) && lay.Home(b) && b !in sp.pending
    requires forall i :: 0 <= i < |ls| ==> !(ls[i].LogWrite? && ls[i].b == b)
    ensures |SpecRun(lay, s, sp, ls).durable| == |sp.durable| == lay.size
    ensures SpecRun(lay, s, sp, ls).durable[b] == sp.durable[b] && b !in SpecRun(lay, s, sp, ls).pending
    decreases |ls|
  {
    hide Inv, Apply, Enabled;
    SpecSize(lay, s, sp);
    if ls != [] {
      StepKept(lay, s, sp, ls[0]);
      assert forall i :: 0 <= i < |ls[1..]| ==> ls[1..][i] == ls[i + 1];
      OnlyLogged(lay, Apply(lay, s, ls[0]), SpecNext(lay, s, sp, ls[0]), ls[1..], b);
    }
  }

  lemma SpecSize(lay: Layout, s: State, sp: Spec)
    requires Inv(lay, s, sp)
    ensures |sp.durable| == lay.size
  {
  }

  /** Reservation at any point of any run: the log never overflows, no operation is in progress during a
      commit, and nobody sleeps in begin_op while the log is idle with room. */
  lemma ReservationHolds(lay: Layout, s: State, ls: seq<Label>)
    requires Formatted(lay, s, Spec(s.disk, map[], map[])) && IsRun(lay, s, ls)
    ensures var t := Run(lay, s, ls);
            t.mem.Some? ==>
              var m := t.mem.value;
              && |m.lh| + Unused(m.ops) <= LOGSIZE && |m.lh| <= lay.Capacity()
              && (m.committing ==> m.ops == map[])
              && (!m.committing && |m.lh| + (|m.ops| + 1) * MAXOPBLOCKS <= LOGSIZE ==> m.sleepers == {})
              && (m.sleepers != {} ==> m.ops != map[] || m.committing)
  {
    var sp := Spec(s.disk, map[], map[]);
    FormattedInv(lay, s);
    RunKept(lay, s, sp, ls);
    var m := Run(lay, s, ls).mem;
    if m.Some? {
      UnusedNonNegative(m.value.ops);
    }
  }

  // ----- Panics -----

  /** No operation of the run logs a block after its tenth. */
  predicate Frugal(lay: Layout, s: State, ls: seq<Label>)
    requires IsRun(lay, s, ls)
    decreases |ls|
  {
    ls == [] || ((ls[0].LogWrite? ==> s.mem.value.ops[ls[0].p] < MAXOPBLOCKS) && Frugal(lay, Apply(lay, s, ls[0]), ls[1..]))
  }

  /** Such runs do not panic in a log area with room for LOGSIZE copies. */
  lemma {:induction false} FrugalRuns(lay: Layout, s: State, sp: Spec, ls: seq<Label>)
    requires Inv(lay, s, sp) && !s.panicked && LOGSIZE + 1 <= lay.nlog && IsRun(lay, s, ls) && Frugal(lay, s, ls)
    ensures !Run(lay, s, ls).panicked
    decreases |ls|
  {
    hide Inv, Apply, Enabled, SpecNext;
    if ls != [] {
      NoPanic(lay, s, sp, ls[0]);
      StepKept(lay, s, sp, ls[0]);
      FrugalRuns(lay, Apply(lay, s, ls[0]), SpecNext(lay, s, sp, ls[0]), ls[1..]);
    }
  }
}
