/** When the kernel panics in log_write.  mkfs/mkfs.c lays out nlog = LOGSIZE blocks, one of which is the
    header, while begin_op admits operations for LOGSIZE blocks. */
module LogCapacity {
  import opened LogMachine
  import opened LogCrash

  function Started(): seq<Label> { [Boot, RecoverErase, BeginOp(1), BeginOp(2), BeginOp(3)] }

  /** What operation p has added once k distinct blocks are logged, ten to an operation. */
  function Share(k: nat, p: nat): nat
    requires 1 <= p
  {
    if k <= MAXOPBLOCKS * (p - 1) then 0
    else if k <= MAXOPBLOCKS * p then k - MAXOPBLOCKS * (p - 1) else MAXOPBLOCKS
  }

  ghost predicate Filled(lay: Layout, s: State, k: nat) {
    && s.mem.Some? && !s.panicked && s.mem.value.pc.Idle? && |s.mem.value.lh| == k
    && (forall i :: 0 <= i < k ==> s.mem.value.lh[i] == lay.start + lay.nlog + i)
    && s.mem.value.ops == map[1 := Share(k, 1), 2 := Share(k, 2), 3 := Share(k, 3)]
    && (forall b :: b in s.mem.value.cache <==> lay.start + lay.nlog <= b < lay.start + lay.nlog + k) && |s.disk| == lay.size
  }

  function Writer(k: nat): nat { if k < 10 then 1 else if k < 20 then 2 else 3 }

  /** The k-th block: read and handed to log_write. */
  function Next(lay: Layout, k: nat): seq<Label> {
    [Load(lay.start + lay.nlog + k), LogWrite(Writer(k), lay.start + lay.nlog + k)]
  }

  lemma FillOne(lay: Layout, s: State, k: nat)
    requires lay.Valid() && lay.start + lay.nlog + LOGSIZE <= lay.size && Filled(lay, s, k) && k < LOGSIZE
    ensures var b := lay.start + lay.nlog + k;
            && Enabled(lay, s, Load(b)) && Enabled(lay, Apply(lay, s, Load(b)), LogWrite(Writer(k), b))
            && s.mem.value.ops[Writer(k)] < MAXOPBLOCKS && Apply(lay, s, Load(b)).mem.value.ops == s.mem.value.ops
            && var t := Apply(lay, Apply(lay, s, Load(b)), LogWrite(Writer(k), b));
               if k < lay.nlog - 1 then Filled(lay, t, k + 1) else t.panicked
  {
  }

  lemma FillStep(lay: Layout, s: State, k: nat)
    requires lay.Valid() && lay.start + lay.nlog + LOGSIZE <= lay.size && Filled(lay, s, k) && k < LOGSIZE
    ensures IsRun(lay, s, Next(lay, k)) && Frugal(lay, s, Next(lay, k))
    ensures if k < lay.nlog - 1 then Filled(lay, Run(lay, s, Next(lay, k)), k + 1) else Run(lay, s, Next(lay, k)).panicked
  {
    FillOne(lay, s, k);
    hide Enabled, Apply, Filled;
    var l, m := Load(lay.start + lay.nlog + k), LogWrite(Writer(k), lay.start + lay.nlog + k);
    var s1 := Apply(lay, s, l);
    assert [l, m][1..] == [m] && [m][1..] == [];
    assert IsRun(lay, Apply(lay, s1, m), []) && IsRun(lay, s1, [m]) && Run(lay, s1, [m]) == Apply(lay, s1, m);
    assert Frugal(lay, s1, [m]);
  }

  /** The log filled from k blocks up to n. */
  lemma {:induction false} Fills(lay: Layout, s: State, k: nat, n: nat) returns (ls: seq<Label>)
    requires lay.Valid() && lay.start + lay.nlog + LOGSIZE <= lay.size
    requires Filled(lay, s, k) && k <= n <= lay.Capacity()
    ensures IsRun(lay, s, ls) && Frugal(lay, s, ls) && Filled(lay, Run(lay, s, ls), n)
    decreases n - k
  {
    if k == n {
      ls := [];
    } else {
      FillStep(lay, s, k);
      hide Enabled, Apply, Filled;
      var rest := Fills(lay, Run(lay, s, Next(lay, k)), k + 1, n);
      FrugalConcat(lay, s, Next(lay, k), rest);
      ls := Next(lay, k) + rest;
    }
  }

  lemma ThreeBegin(lay: Layout, s: State) returns (t: State)
    requires s.mem.Some? && !s.panicked && s.mem.value.pc.Idle? && !s.mem.value.committing
    requires s.mem.value.lh == [] && s.mem.value.ops == map[] && s.mem.value.sleepers == {} && s.mem.value.cache == map[] && |s.disk| == lay.size
    ensures var ls := [BeginOp(1), BeginOp(2), BeginOp(3)];
            IsRun(lay, s, ls) && Frugal(lay, s, ls) && Run(lay, s, ls) == t && Filled(lay, t, 0)
  {
    var s3 := Apply(lay, s, BeginOp(1));
    var s4 := Apply(lay, s3, BeginOp(2));
    t := Apply(lay, s4, BeginOp(3));
    hide Enabled, Apply;
    assert IsRun(lay, t, []);
    assert [BeginOp(3)][1..] == [];
    assert [BeginOp(2), BeginOp(3)][1..] == [BeginOp(3)];
    assert [BeginOp(1), BeginOp(2), BeginOp(3)][1..] == [BeginOp(2), BeginOp(3)];
    assert IsRun(lay, s3, [BeginOp(2), BeginOp(3)]);
    assert Frugal(lay, s4, [BeginOp(3)]);
    assert Frugal(lay, s3, [BeginOp(2), BeginOp(3)]);
  }

  lemma StartedFills(lay: Layout, s: State)
    requires Formatted(lay, s, Spec(s.disk, map[], map[]))
    ensures IsRun(lay, s, Started()) && Frugal(lay, s, Started()) && Filled(lay, Run(lay, s, Started()), 0)
  {
    var s1 := Apply(lay, s, Boot);
    var s2 := Apply(lay, s1, RecoverErase);
    var s5 := ThreeBegin(lay, s2);
    hide Enabled, Apply;
    assert [RecoverErase, BeginOp(1), BeginOp(2), BeginOp(3)][1..] == [BeginOp(1), BeginOp(2), BeginOp(3)];
    assert Started()[1..] == [RecoverErase, BeginOp(1), BeginOp(2), BeginOp(3)];
    assert Frugal(lay, s1, [RecoverErase, BeginOp(1), BeginOp(2), BeginOp(3)]);
  }

  lemma {:induction false} FrugalConcat(lay: Layout, s: State, xs: seq<Label>, ys: seq<Label>)
    requires IsRun(lay, s, xs) && Frugal(lay, s, xs) && IsRun(lay, Run(lay, s, xs), ys) && Frugal(lay, Run(lay, s, xs), ys)
    ensures IsRun(lay, s, xs + ys) && Frugal(lay, s, xs + ys) && Run(lay, s, xs + ys) == Run(lay, Run(lay, s, xs), ys)
    decreases |xs|
  {
    hide Enabled, Apply;
    if xs == [] {
      assert xs + ys == ys;
    } else {
      FrugalConcat(lay, Apply(lay, s, xs[0]), xs[1..], ys);
      assert (xs + ys)[1..] == xs[1..] + ys;
    }
  }

  /** From boot to a log of n blocks. */
  lemma FullRun(lay: Layout, s: State, n: nat) returns (ls: seq<Label>)
    requires Formatted(lay, s, Spec(s.disk, map[], map[])) && lay.start + lay.nlog + LOGSIZE <= lay.size && n <= lay.Capacity()
    ensures IsRun(lay, s, ls) && Frugal(lay, s, ls) && Filled(lay, Run(lay, s, ls), n)
  {
    StartedFills(lay, s);
    var rest := Fills(lay, Run(lay, s, Started()), 0, n);
    hide Enabled, Apply, Filled;
    FrugalConcat(lay, s, Started(), rest);
    ls := Started() + rest;
  }

  lemma OneMore(lay: Layout, s: State, ls: seq<Label>, l: Label)
    requires IsRun(lay, s, ls) && Enabled(lay, Run(lay, s, ls), l)
    ensures IsRun(lay, s, ls + [l]) && Run(lay, s, ls + [l]) == Apply(lay, Run(lay, s, ls), l)
    ensures Frugal(lay, s, ls) && (l.LogWrite? ==> Run(lay, s, ls).mem.value.ops[l.p] < MAXOPBLOCKS) ==> Frugal(lay, s, ls + [l])
  {
    var t := Run(lay, s, ls);
    hide Apply;
    assert [l][1..] == [];
    assert IsRun(lay, Apply(lay, t, l), [l][1..]);
    RunConcat(lay, s, ls, [l]);
    if Frugal(lay, s, ls) && (l.LogWrite? ==> t.mem.value.ops[l.p] < MAXOPBLOCKS) {
      FrugalConcat(lay, s, ls, [l]);
    }
  }

  /** Operations that log nothing after their tenth block never meet "too big a transaction" if and only if
      the log area has a header block and LOGSIZE data blocks. */
  lemma PanicFreeIffRoom(lay: Layout, s: State)
    requires Formatted(lay, s, Spec(s.disk, map[], map[])) && lay.start + lay.nlog + LOGSIZE <= lay.size
    ensures (forall ls :: IsRun(lay, s, ls) && Frugal(lay, s, ls) ==> !Run(lay, s, ls).panicked) <==> LOGSIZE + 1 <= lay.nlog
  {
    if LOGSIZE + 1 <= lay.nlog {
      FormattedInv(lay, s);
      forall ls | IsRun(lay, s, ls) && Frugal(lay, s, ls) ensures !Run(lay, s, ls).panicked {
        FrugalRuns(lay, s, Spec(s.disk, map[], map[]), ls);
      }
    } else {
      var k := lay.nlog - 1;
      var ls := FullRun(lay, s, k);
      FillStep(lay, Run(lay, s, ls), k);
      FrugalConcat(lay, s, ls, Next(lay, k));
      assert IsRun(lay, s, ls + Next(lay, k)) && Frugal(lay, s, ls + Next(lay, k)) && Run(lay, s, ls + Next(lay, k)).panicked;
    }
  }

  /** With a block logged again after the tenth, the panic is met in every log area: the three operations that
      begin_op lets in fill the log, and one of them writes a block of its own once more. */
  lemma AbsorbedPanics(lay: Layout, s: State) returns (ls: seq<Label>, l: Label)
    requires Formatted(lay, s, Spec(s.disk, map[], map[])) && lay.start + lay.nlog + LOGSIZE <= lay.size && 2 <= lay.nlog
    ensures IsRun(lay, s, ls) && Run(lay, s, ls).mem.Some? && l.LogWrite? && l.b in Run(lay, s, ls).mem.value.lh
    ensures IsRun(lay, s, ls + [l]) && !Run(lay, s, ls).panicked && Run(lay, s, ls + [l]).panicked
  {
    ls := FullRun(lay, s, lay.Capacity());
    l := LogWrite(1, lay.start + lay.nlog);
    assert Run(lay, s, ls).mem.value.lh[0] == l.b;
    OneMore(lay, s, ls, l);
  }
}
