/** The redo log of kernel/log.c as a step machine over single-block disk writes.

    One label is one atomic step of the kernel: a critical section under log.lock,
    or one block written to the disk by commit() or by recovery.  A crash may be
    taken between any two steps: it keeps the disk and loses everything else.  A kernel that has
    panicked stands still until then. */
module LogMachine {

  const MAXOPBLOCKS: nat := 10
  const LOGSIZE: nat := 3 * MAXOPBLOCKS
  const WORDS: nat := 256

  datatype Option<+T> = None | Some(value: T)

  /** A disk block of BSIZE bytes, seen as its 256 words. */
  type Block = b: seq<int> | |b| == WORDS witness seq(WORDS, _ => 0)

  type Disk = seq<Block>

  /** Where the log lies: header block at `start`, copies in the nlog - 1 blocks after it. */
  datatype Layout = Layout(start: nat, nlog: nat, size: nat) {
    predicate Valid() { 1 <= nlog && start + nlog <= size }

    predicate Home(b: int) { 0 <= b < size && !(start <= b < start + nlog) }

    /** The two bounds that log_write looks at. */
    function Capacity(): int { if LOGSIZE <= nlog - 1 then LOGSIZE else nlog - 1 }
  }

  // ----- The on-disk header -----

  function HeadN(h: Block): int { h[0] }

  function HeadBlocks(h: Block): seq<int>
    requires 0 <= HeadN(h) <= LOGSIZE
  {
    h[1..1 + HeadN(h)]
  }

  /** write_head fills in n and the first n block numbers, and keeps the other words. */
  function HeadBlock(old_: Block, lh: seq<int>): Block
    requires |lh| <= LOGSIZE
  {
    [|lh|] + lh + old_[1 + |lh|..]
  }

  /** What recovery makes of home block b when the header names the first n copies. */
  function RecoverBlock(lay: Layout, d: Disk, n: nat, b: int): Block
    requires lay.Valid() && |d| == lay.size && lay.Home(b)
    requires n <= LOGSIZE && n <= lay.nlog - 1
  {
    if n == 0 then d[b]
    else if d[lay.start][n] == b then d[lay.start + n]
    else RecoverBlock(lay, d, n - 1, b)
  }

  // ----- The machine -----

  /** How far commit() or recovery has come; every constructor but Idle and Finish
      stands before one disk write. */
  datatype Pc =
    | Idle
    | CopyToLog(tail: nat) | CommitHead | Install(tail: nat) | ClearHead | Finish
    | RecoverInstall(tail: nat) | RecoverClear

  /** What a crash loses.  `ops` holds, for each operation between begin_op and end_op,
      how many blocks it has added to the log; `cache` is the buffer cache. */
  datatype Mem = Mem(cache: map<int, Block>, lh: seq<int>, committing: bool,
                     ops: map<nat, nat>, sleepers: set<nat>, pc: Pc)
  {
    /** Blocks that log_write has pinned and install_trans has not unpinned yet. */
    function Pinned(): seq<int> {
      match pc
      case Install(tail) => if tail <= |lh| then lh[tail..] else []
      case ClearHead => []
      case RecoverInstall(_) => []
      case RecoverClear => []
      case _ => lh
    }
  }

  datatype State = State(disk: Disk, mem: Option<Mem>, panicked: bool)

  datatype Label =
    | BeginOp(p: nat)
    | Modify(p: nat, b: int, data: Block)
    | LogWrite(p: nat, b: int)
    | EndOp(p: nat)
    | WriteLog | WriteHead | InstallTrans | EraseHead | WakeAll
    | RecoverInstallTrans | RecoverErase
    | Load(b: int) | Evict(b: int)
    | Crash | Boot

  function View(s: State, b: int): Block
    requires s.mem.Some? && 0 <= b < |s.disk|
  {
    if b in s.mem.value.cache then s.mem.value.cache[b] else s.disk[b]
  }

  /** begin_op has to wait. */
  predicate MustWait(m: Mem) {
    m.committing || |m.lh| + (|m.ops| + 1) * MAXOPBLOCKS > LOGSIZE
  }

  /** The test before the panic "too big a transaction". */
  predicate Full(lay: Layout, m: Mem) { |m.lh| >= LOGSIZE || |m.lh| >= lay.nlog - 1 }

  /** LogWrite carries the contract of begin_op: an operation adds at most MAXOPBLOCKS blocks to the log.  Modify is
      an operation's change of a buffer; nothing makes it call log_write after it. */
  predicate Enabled(lay: Layout, s: State, l: Label)
  {
    if l.Crash? then s.mem.Some?
    else if l.Boot? then !s.panicked && s.mem.None? && lay.start < |s.disk| && 0 <= HeadN(s.disk[lay.start]) <= LOGSIZE
    else !s.panicked && s.mem.Some? && EnabledUp(lay, s, s.mem.value, l)
  }

  predicate EnabledUp(lay: Layout, s: State, m: Mem, l: Label) {
      match l
      case BeginOp(p) => !m.pc.RecoverInstall? && !m.pc.RecoverClear? && p !in m.ops && p !in m.sleepers
      case Modify(p, b, data) => p in m.ops && b in m.cache && lay.Home(b)
      case LogWrite(p, b) => p in m.ops && (b in m.lh || m.ops[p] < MAXOPBLOCKS) && b in m.cache && lay.Home(b)
      case EndOp(p) => p in m.ops
      case WriteLog => m.pc.CopyToLog? && m.pc.tail < |m.lh| && lay.start + 1 + m.pc.tail < |s.disk| &&
        0 <= m.lh[m.pc.tail] < |s.disk|
      case WriteHead => m.pc.CommitHead? && lay.start < |s.disk| && |m.lh| <= LOGSIZE
      case InstallTrans => m.pc.Install? && m.pc.tail < |m.lh| && lay.start + 1 + m.pc.tail < |s.disk| &&
        0 <= m.lh[m.pc.tail] < |s.disk|
      case EraseHead => m.pc.ClearHead? && lay.start < |s.disk|
      case WakeAll => m.pc.Finish?
      case RecoverInstallTrans => m.pc.RecoverInstall? && m.pc.tail < |m.lh| &&
        lay.start + 1 + m.pc.tail < |s.disk| && 0 <= m.lh[m.pc.tail] < |s.disk|
      case RecoverErase => m.pc.RecoverClear? && lay.start < |s.disk|
      case Load(b) => lay.Home(b) && b < |s.disk| && b !in m.cache
      case Evict(b) => b in m.cache && b !in m.Pinned()
      case Crash => false
      case Boot => false
  }

  function AfterInstall(m: Mem, tail: nat): Mem {
    if m.pc.RecoverInstall? then
      if tail < |m.lh| then m.(pc := RecoverInstall(tail)) else m.(pc := RecoverClear)
    else
      if tail < |m.lh| then m.(pc := Install(tail)) else m.(pc := ClearHead)
  }

  /** One block copied from the log to its home, through the destination's buffer. */
  function InstallOne(lay: Layout, s: State): State
    requires s.mem.Some? && (s.mem.value.pc.Install? || s.mem.value.pc.RecoverInstall?)
    requires s.mem.value.pc.tail < |s.mem.value.lh| && lay.start + 1 + s.mem.value.pc.tail < |s.disk|
    requires 0 <= s.mem.value.lh[s.mem.value.pc.tail] < |s.disk|
  {
    var m := s.mem.value;
    var copy := s.disk[lay.start + 1 + m.pc.tail];
    State(s.disk[m.lh[m.pc.tail] := copy],
          Some(AfterInstall(m.(cache := m.cache[m.lh[m.pc.tail] := copy]), m.pc.tail + 1)), s.panicked)
  }

  function DoLogWrite(lay: Layout, s: State, p: nat, b: int): State
    requires s.mem.Some? && p in s.mem.value.ops
  {
    var m := s.mem.value;
    if Full(lay, m) then s.(panicked := true)
    else if b in m.lh then s
    else s.(mem := Some(m.(lh := m.lh + [b], ops := m.ops[p := m.ops[p] + 1])))
  }

  function DoEndOp(s: State, p: nat): State
    requires s.mem.Some? && p in s.mem.value.ops
  {
    var m := s.mem.value;
    var m' := m.(ops := m.ops - {p});
    if m.committing then s.(panicked := true)
    else if |m'.ops| == 0 then
      s.(mem := Some(m'.(committing := true, pc := if |m.lh| > 0 then CopyToLog(0) else Finish)))
    else s.(mem := Some(m'.(sleepers := {})))
  }

  function Apply(lay: Layout, s: State, l: Label): State
    requires Enabled(lay, s, l)
  {
    if l.Boot? then
      var lh := HeadBlocks(s.disk[lay.start]);
      s.(mem := Some(Mem(map[], lh, false, map[], {}, if |lh| > 0 then RecoverInstall(0) else RecoverClear)))
    else
    var m := s.mem.value;
    match l
    case BeginOp(p) =>
      if MustWait(m) then s.(mem := Some(m.(sleepers := m.sleepers + {p})))
      else s.(mem := Some(m.(ops := m.ops[p := 0])))
    case Modify(p, b, data) => s.(mem := Some(m.(cache := m.cache[b := data])))
    case LogWrite(p, b) => DoLogWrite(lay, s, p, b)
    case EndOp(p) => DoEndOp(s, p)
    case WriteLog =>
      State(s.disk[lay.start + 1 + m.pc.tail := View(s, m.lh[m.pc.tail])],
            Some(m.(pc := if m.pc.tail + 1 < |m.lh| then CopyToLog(m.pc.tail + 1) else CommitHead)), s.panicked)
    case WriteHead =>
      State(s.disk[lay.start := HeadBlock(s.disk[lay.start], m.lh)], Some(m.(pc := Install(0))), s.panicked)
    case InstallTrans => InstallOne(lay, s)
    case RecoverInstallTrans => InstallOne(lay, s)
    case EraseHead =>
      State(s.disk[lay.start := HeadBlock(s.disk[lay.start], [])], Some(m.(pc := Finish, lh := [])), s.panicked)
    case RecoverErase =>
      State(s.disk[lay.start := HeadBlock(s.disk[lay.start], [])], Some(m.(pc := Idle, lh := [])), s.panicked)
    case WakeAll => s.(mem := Some(m.(committing := false, sleepers := {}, pc := Idle)))
    case Load(b) => s.(mem := Some(m.(cache := m.cache[b := s.disk[b]])))
    case Evict(b) => s.(mem := Some(m.(cache := m.cache - {b})))
    case Crash => State(s.disk, None, false)
  }

  predicate IsRun(lay: Layout, s: State, ls: seq<Label>)
    decreases |ls|
  {
    ls == [] || (Enabled(lay, s, ls[0]) && IsRun(lay, Apply(lay, s, ls[0]), ls[1..]))
  }

  function Run(lay: Layout, s: State, ls: seq<Label>): State
    requires IsRun(lay, s, ls)
    decreases |ls|
  {
    if ls == [] then s else Run(lay, Apply(lay, s, ls[0]), ls[1..])
  }

  lemma {:induction false} RunConcat(lay: Layout, s: State, xs: seq<Label>, ys: seq<Label>)
    requires IsRun(lay, s, xs) && IsRun(lay, Run(lay, s, xs), ys)
    ensures IsRun(lay, s, xs + ys) && Run(lay, s, xs + ys) == Run(lay, Run(lay, s, xs), ys)
    decreases |xs|
  {
    hide Enabled, Apply;
    if xs == [] {
      assert xs + ys == ys;
    } else {
      RunConcat(lay, Apply(lay, s, xs[0]), xs[1..], ys);
      assert (xs + ys)[1..] == xs[1..] + ys;
    }
  }

  // ----- What the log promises, told without a log -----

  /** `durable` is the disk after the committed transactions, `pending` the contents of the blocks in the
      transaction being gathered, `stray` changed blocks that nobody has given to log_write. */
  datatype Spec = Spec(durable: Disk, pending: map<int, Block>, stray: map<int, Block>)

  function Overlay(d: Disk, m: map<int, Block>): (r: Disk)
    ensures |r| == |d|
    ensures forall b :: 0 <= b < |d| ==> r[b] == if b in m then m[b] else d[b]
  {
    seq(|d|, b requires 0 <= b < |d| => if b in m then m[b] else d[b])
  }

  /** What readers see. */
  function Seen(sp: Spec): Disk { Overlay(Overlay(sp.durable, sp.pending), sp.stray) }

  /** A change of a block that is in the transaction is part of it at once; any other stays outside until log_write
      takes it in.  A log_write that panics does not. */
  function SpecNext(lay: Layout, s: State, sp: Spec, l: Label): Spec {
    match l
    case Modify(_, b, data) =>
      if b in sp.pending then sp.(pending := sp.pending[b := data]) else sp.(stray := sp.stray[b := data])
    case LogWrite(_, b) =>
      if b in sp.pending || (s.mem.Some? && Full(lay, s.mem.value)) || !(0 <= b < |sp.durable|) then sp
      else Spec(sp.durable, sp.pending[b := Seen(sp)[b]], sp.stray - {b})
    case WriteHead => Spec(Overlay(sp.durable, sp.pending), map[], sp.stray)
    case Evict(b) => sp.(stray := sp.stray - {b})
    case Crash => Spec(sp.durable, map[], map[])
    case _ => sp
  }

  function SpecRun(lay: Layout, s: State, sp: Spec, ls: seq<Label>): Spec
    requires IsRun(lay, s, ls)
    decreases |ls|
  {
    if ls == [] then sp else SpecRun(lay, Apply(lay, s, ls[0]), SpecNext(lay, s, sp, ls[0]), ls[1..])
  }
}
