/** How many free pages it takes to map a range: the pages themselves, and the tables that are missing on the way. */
module PageCount {
  import opened PageTree
  import opened PageMemory

  /** The bits of v above a level. */
  function Above(level: int, v: int): int { if level == 2 then 0 else if level == 1 then v / 262144 else v / 512 }

  predicate TableAt(u: Use, r: int, level: int, x: int) { u.Node? && u.root == r && u.level == level && u.prefix == x }

  /** Root r has the table of this level for the pages whose bits above it are x. */
  ghost predicate HasTable(use: seq<Use>, r: int, level: int, x: int) {
    exists p :: 0 <= p < |use| && TableAt(use[p], r, level, x)
  }

  ghost function Lacks(use: seq<Use>, r: int, level: int, v: int): int {
    if HasTable(use, r, level, Above(level, v)) then 0 else 1
  }

  /** The table that page v needs after pages [a, v) have theirs. */
  ghost function Added(use: seq<Use>, r: int, level: int, a: int, v: int): (k: int)
    ensures 0 <= k <= 1
  {
    if a < v && Above(level, v - 1) == Above(level, v) then 0 else Lacks(use, r, level, v)
  }

  /** The tables that are missing for pages [a, b): each that is not there counts once. */
  ghost function Tables(use: seq<Use>, r: int, a: int, b: int): (k: int)
    ensures 0 <= k
    decreases b - a
  {
    if b <= a then 0 else Tables(use, r, a, b - 1) + Added(use, r, 1, a, b - 1) + Added(use, r, 0, a, b - 1)
  }

  predicate InSpan(level: int, a: int, b: int, x: int) { a < b && Above(level, a) <= x <= Above(level, b - 1) }

  /** Root r has the tables it had, and all for pages [a, b). */
  ghost predicate Tabled(use0: seq<Use>, use: seq<Use>, r: int, a: int, b: int) {
    forall level, x :: 0 <= level <= 1 ==> (HasTable(use, r, level, x) <==> HasTable(use0, r, level, x) || InSpan(level, a, b, x))
  }

  /** From m0 to m, k pages and the missing tables for pages [a, b) of r were taken from the free pages. */
  ghost predicate Billed(m0: Mem, m: Mem, r: int, a: int, b: int, k: int) {
    |m.chain| + k + Tables(m0.use, r, a, b) == |m0.chain| && Tabled(m0.use, m.use, r, a, b)
  }

  /** That was possible, or there were too few free pages for it. */
  ghost predicate Afforded(m0: Mem, m: Mem, r: int, a: int, b: int, k: int, ok: bool) {
    if ok then Billed(m0, m, r, a, b, k) else |m0.chain| < k + Tables(m0.use, r, a, b)
  }

  lemma AffordedIff(m0: Mem, m: Mem, r: int, a: int, b: int, k: int, ok: bool)
    requires Afforded(m0, m, r, a, b, k, ok)
    ensures ok <==> |m0.chain| >= k + Tables(m0.use, r, a, b)
  {
    hide Tables, Tabled;
  }

  // ----- Sums -----

  lemma {:induction false} TablesGrow(use: seq<Use>, r: int, a: int, b: int, c: int)
    requires b <= c
    ensures Tables(use, r, a, b) <= Tables(use, r, a, c)
    decreases c - b
  {
    if b < c {
      TablesGrow(use, r, a, b, c - 1);
      hide Added;
    }
  }

  lemma OnePage(use: seq<Use>, r: int, v: int)
    ensures Tables(use, r, v, v + 1) == Lacks(use, r, 1, v) + Lacks(use, r, 0, v)
  {
    assert Tables(use, r, v, v) == 0;
    hide Lacks;
  }

  lemma AboveSteps(level: int, a: int, v: int)
    requires 0 <= level <= 1 && 0 <= a <= v
    ensures 0 <= Above(level, a) <= Above(level, v)
    ensures a < v ==> Above(level, a) <= Above(level, v - 1) <= Above(level, v) <= Above(level, v - 1) + 1
  {
  }

  /** With the tables of [a, v) there, page v lacks what is added for it. */
  lemma LacksAdded(use0: seq<Use>, use: seq<Use>, r: int, level: int, a: int, v: int)
    requires Tabled(use0, use, r, a, v) && 0 <= level <= 1 && 0 <= a <= v
    ensures Lacks(use, r, level, v) == Added(use0, r, level, a, v)
  {
    hide HasTable, Above;
    AboveSteps(level, a, v);
    assert HasTable(use, r, level, Above(level, v)) <==> HasTable(use0, r, level, Above(level, v)) || InSpan(level, a, v, Above(level, v));
  }

  lemma SpanMore(level: int, a: int, v: int, x: int)
    requires 0 <= level <= 1 && 0 <= a <= v
    ensures InSpan(level, a, v + 1, x) <==> InSpan(level, a, v, x) || InSpan(level, v, v + 1, x)
  {
    hide Above;
    AboveSteps(level, a, v);
  }

  lemma BilledStart(m: Mem, r: int, a: int)
    ensures Billed(m, m, r, a, a, 0)
  {
    hide HasTable;
  }

  lemma BilledThen(m0: Mem, m: Mem, m': Mem, r: int, a: int, v: int, k: int, j: int)
    requires Billed(m0, m, r, a, v, k) && Billed(m, m', r, v, v + 1, j) && 0 <= a <= v
    ensures Billed(m0, m', r, a, v + 1, k + j)
  {
    hide HasTable, InSpan, Lacks, Added;
    OnePage(m.use, r, v);
    LacksAdded(m0.use, m.use, r, 1, a, v);
    LacksAdded(m0.use, m.use, r, 0, a, v);
    forall level, x | 0 <= level <= 1
      ensures HasTable(m'.use, r, level, x) <==> HasTable(m0.use, r, level, x) || InSpan(level, a, v + 1, x)
    {
      SpanMore(level, a, v, x);
    }
  }

  /** Too few pages for page v are too few for a range that goes on beyond it. */
  lemma TooFew(m0: Mem, m: Mem, r: int, a: int, v: int, b: int, k: int, j: int, k': int)
    requires Billed(m0, m, r, a, v, k) && |m.chain| < j + Tables(m.use, r, v, v + 1) && 0 <= a <= v < b && k + j <= k'
    ensures |m0.chain| < k' + Tables(m0.use, r, a, b)
  {
    hide HasTable, InSpan, Lacks, Added;
    OnePage(m.use, r, v);
    LacksAdded(m0.use, m.use, r, 1, a, v);
    LacksAdded(m0.use, m.use, r, 0, a, v);
    TablesGrow(m0.use, r, a, v + 1, b);
  }

  /** Pages [a, v) are there, and page v is or cannot be. */
  lemma AffordedThen(m0: Mem, m: Mem, m': Mem, r: int, a: int, v: int, b: int, k: int, j: int, k': int, ok: bool)
    requires Billed(m0, m, r, a, v, k) && Afforded(m, m', r, v, v + 1, j, ok) && 0 <= a <= v < b && k + j <= k'
    ensures if ok then Billed(m0, m', r, a, v + 1, k + j) else Afforded(m0, m', r, a, b, k', false)
  {
    hide Billed, Tables;
    if ok {
      BilledThen(m0, m, m', r, a, v, k, j);
    } else {
      TooFew(m0, m, r, a, v, b, k, j, k');
    }
  }

  lemma AffordedAll(m0: Mem, m: Mem, r: int, a: int, b: int, k: int)
    requires Billed(m0, m, r, a, b, k)
    ensures Afforded(m0, m, r, a, b, k, true)
  {
    hide Billed, Tables;
  }

  /** What is taken back after a failure does not count. */
  lemma NotAfforded(m0: Mem, m: Mem, m': Mem, r: int, a: int, b: int, k: int)
    requires Afforded(m0, m, r, a, b, k, false)
    ensures Afforded(m0, m', r, a, b, k, false)
  {
    hide Tables;
  }

  // ----- Steps -----

  /** Tables are the same pages in both. */
  ghost predicate SameNodes(use: seq<Use>, use': seq<Use>) {
    |use'| == |use| && forall p :: 0 <= p < |use| ==> (use'[p].Node? <==> use[p].Node?) && (use[p].Node? ==> use'[p] == use[p])
  }

  lemma SameTables(use: seq<Use>, use': seq<Use>, r: int, level: int, x: int)
    requires SameNodes(use, use')
    ensures HasTable(use', r, level, x) <==> HasTable(use, r, level, x)
  {
    if HasTable(use, r, level, x) {
      var p :| 0 <= p < |use| && TableAt(use[p], r, level, x);
      assert TableAt(use'[p], r, level, x);
    }
    if HasTable(use', r, level, x) {
      var p :| 0 <= p < |use'| && TableAt(use'[p], r, level, x);
      assert TableAt(use[p], r, level, x);
    }
  }

  lemma {:induction false} TablesSame(use: seq<Use>, use': seq<Use>, r: int, a: int, b: int)
    requires SameNodes(use, use')
    ensures Tables(use', r, a, b) == Tables(use, r, a, b)
    decreases b - a
  {
    if a < b {
      TablesSame(use, use', r, a, b - 1);
      SameTables(use, use', r, 1, Above(1, b - 1));
      SameTables(use, use', r, 0, Above(0, b - 1));
      hide HasTable, SameNodes, Above;
    }
  }

  /** Steps that make no table, after: k pages more or less. */
  lemma BilledSame(m0: Mem, m: Mem, m': Mem, r: int, a: int, b: int, k: int)
    requires Billed(m0, m, r, a, b, k) && SameNodes(m.use, m'.use)
    ensures Billed(m0, m', r, a, b, k + |m.chain| - |m'.chain|)
  {
    hide HasTable, SameNodes, Tables, InSpan;
    forall level, x | 0 <= level <= 1
      ensures HasTable(m'.use, r, level, x) <==> HasTable(m0.use, r, level, x) || InSpan(level, a, b, x)
    {
      SameTables(m.use, m'.use, r, level, x);
    }
  }

  lemma AffordedSame(m0: Mem, m: Mem, m': Mem, r: int, a: int, b: int, k: int, ok: bool)
    requires Afforded(m0, m, r, a, b, k, ok) && (ok ==> SameNodes(m.use, m'.use) && |m'.chain| == |m.chain|)
    ensures Afforded(m0, m', r, a, b, k, ok)
  {
    hide HasTable, SameNodes, Tables, Billed;
    if ok {
      BilledSame(m0, m, m', r, a, b, k);
    }
  }

  /** And before. */
  lemma AffordedAfter(m0: Mem, m: Mem, m': Mem, r: int, a: int, b: int, k: int, ok: bool)
    requires Afforded(m, m', r, a, b, k, ok) && SameNodes(m0.use, m.use) && |m.chain| <= |m0.chain|
    ensures Afforded(m0, m', r, a, b, k + |m0.chain| - |m.chain|, ok)
  {
    hide HasTable, SameNodes, Tables, InSpan;
    TablesSame(m0.use, m.use, r, a, b);
    if ok {
      forall level, x | 0 <= level <= 1
        ensures HasTable(m'.use, r, level, x) <==> HasTable(m0.use, r, level, x) || InSpan(level, a, b, x)
      {
        SameTables(m0.use, m.use, r, level, x);
      }
    }
  }

  /** One table, made or found. */
  ghost predicate Levelled(m0: Mem, m: Mem, r: int, level: int, x: int) {
    && |m.chain| + (if HasTable(m0.use, r, level, x) then 0 else 1) == |m0.chain|
    && forall l, y :: HasTable(m.use, r, l, y) <==> HasTable(m0.use, r, l, y) || (l == level && y == x)
  }

  lemma FoundTable(m: Mem, r: int, level: int, x: int, c: int)
    requires 0 <= c < |m.use| && TableAt(m.use[c], r, level, x)
    ensures Levelled(m, m, r, level, x)
  {
    assert HasTable(m.use, r, level, x);
    hide HasTable;
  }

  lemma MadeTable(m0: Mem, m: Mem, r: int, level: int, x: int, c: int)
    requires |m.use| == |m0.use| && 0 <= c < |m.use| && TableAt(m.use[c], r, level, x) && !m0.use[c].Node?
    requires (forall p :: 0 <= p < |m.use| && p != c ==> (m.use[p].Node? <==> m0.use[p].Node?) && (m.use[p].Node? ==> m.use[p] == m0.use[p]))
    requires |m.chain| + 1 == |m0.chain| && !HasTable(m0.use, r, level, x)
    ensures Levelled(m0, m, r, level, x)
  {
    forall l, y ensures HasTable(m.use, r, l, y) <==> HasTable(m0.use, r, l, y) || (l == level && y == x) {
      if l == level && y == x {
        assert TableAt(m.use[c], r, l, y);
      } else {
        if HasTable(m0.use, r, l, y) {
          var p :| 0 <= p < |m0.use| && TableAt(m0.use[p], r, l, y);
          assert TableAt(m.use[p], r, l, y);
        }
        if HasTable(m.use, r, l, y) {
          var p :| 0 <= p < |m.use| && TableAt(m.use[p], r, l, y);
          assert p != c && TableAt(m0.use[p], r, l, y);
        }
      }
    }
  }

  /** The two tables on the way to page v. */
  lemma BothLevels(m0: Mem, m: Mem, m': Mem, r: int, v: int)
    requires Levelled(m0, m, r, 1, v / 262144) && Levelled(m, m', r, 0, v / 512)
    ensures Billed(m0, m', r, v, v + 1, 0)
  {
    hide HasTable;
    OnePage(m0.use, r, v);
    hide Tables;
    forall level, x | 0 <= level <= 1
      ensures HasTable(m'.use, r, level, x) <==> HasTable(m0.use, r, level, x) || InSpan(level, v, v + 1, x)
    {
    }
  }

  lemma NoUpper(m0: Mem, r: int, v: int)
    requires m0.chain == [] && !HasTable(m0.use, r, 1, v / 262144)
    ensures |m0.chain| < Tables(m0.use, r, v, v + 1)
  {
    OnePage(m0.use, r, v);
    hide HasTable, Tables;
  }

  lemma NoLower(m0: Mem, m: Mem, r: int, v: int)
    requires Levelled(m0, m, r, 1, v / 262144) && m.chain == [] && !HasTable(m.use, r, 0, v / 512)
    ensures |m0.chain| < Tables(m0.use, r, v, v + 1)
  {
    OnePage(m0.use, r, v);
    hide HasTable, Tables;
  }

  /** An entry that is 0 has no table below it anywhere. */
  lemma NoTable(lo: int, m: Mem, r: int, n: int, level: int, v: int)
    requires Inv(lo, m) && InRange(m, n) && TableAt(m.use[n], r, level, Above(level, v)) && 1 <= level <= 2 && 0 <= v < 0x400_0000
    requires Entry(m.fs, n, Above(level - 1, v) % 512) == 0
    ensures !HasTable(m.use, r, level - 1, Above(level - 1, v))
  {
    if HasTable(m.use, r, level - 1, Above(level - 1, v)) {
      var c :| 0 <= c < |m.use| && TableAt(m.use[c], r, level - 1, Above(level - 1, v));
      EntryAbove(lo, m, r, n, level, v, c);
    }
  }

  lemma EntryAbove(lo: int, m: Mem, r: int, n: int, level: int, v: int, c: int)
    requires Inv(lo, m) && InRange(m, n) && TableAt(m.use[n], r, level, Above(level, v)) && 1 <= level <= 2 && 0 <= v < 0x400_0000
    requires InRange(m, c) && TableAt(m.use[c], r, level - 1, Above(level - 1, v))
    ensures Entry(m.fs, n, Above(level - 1, v) % 512) != 0
  {
    hide Threaded, FreeOk, UsersOk, MapsOk, Kernel;
    UpDown(m.fs, m.use, c);
    SameUpper(lo, m, r, n, m.use[c].up, level, v);
    hide Tree, Inv;
  }

  lemma SameUpper(lo: int, m: Mem, r: int, n: int, u: int, level: int, v: int)
    requires Inv(lo, m) && InRange(m, n) && InRange(m, u) && 1 <= level <= 2 && 0 <= v < 0x400_0000
    requires TableAt(m.use[n], r, level, Above(level, v)) && m.use[u].Node? && m.use[u].root == r && m.use[u].level == level
    requires m.use[u].prefix == Above(level - 1, v) / 512
    ensures u == n
  {
    hide Threaded, FreeOk, UsersOk, MapsOk, Kernel;
    NodeGist(m.fs, m.use, n);
    NodeGist(m.fs, m.use, u);
    if level == 1 {
      UpDown(m.fs, m.use, n);
      UpDown(m.fs, m.use, u);
      assert v / 512 / 512 == v / 262144;
    }
    hide Tree, Inv;
  }

  // ----- A new process -----

  /** Root r has no tables. */
  ghost predicate NoTables(use: seq<Use>, r: int) { forall level, x :: 0 <= level <= 1 ==> !HasTable(use, r, level, x) }

  lemma NewRootBare(lo: int, m0: Mem, m: Mem, r: int)
    requires Inv(lo, m0) && InRange(m0, r) && !m0.use[r].Node? && |m.use| == |m0.use| && m.use[r] == Node(r, 2, 0, r)
    requires forall p :: 0 <= p < |m.use| && p != r ==> m.use[p] == m0.use[p]
    ensures NoTables(m.use, r)
  {
    forall level, x | 0 <= level <= 1 ensures !HasTable(m.use, r, level, x) {
      if HasTable(m.use, r, level, x) {
        var p :| 0 <= p < |m.use| && TableAt(m.use[p], r, level, x);
        assert p != r;
        NodeGist(m0.fs, m0.use, p);
      }
    }
  }

  const TOP: int := 0x3FF_FFFF

  /** Root r has the two tables for the pages at the top, and no others. */
  ghost predicate TopTables(use: seq<Use>, r: int) {
    forall level, x :: 0 <= level <= 1 ==> (HasTable(use, r, level, x) <==> x == Above(level, TOP))
  }

  /** The first of the top pages needs two tables, the other none. */
  lemma FirstTop(m0: Mem, m: Mem, r: int, ok: bool)
    requires NoTables(m0.use, r) && Afforded(m0, m, r, TOP, TOP + 1, 0, ok)
    ensures if ok then TopTables(m.use, r) && |m.chain| + 2 == |m0.chain| else |m0.chain| < 2
  {
    hide HasTable;
    OnePage(m0.use, r, TOP);
    hide Tables;
  }

  lemma SecondTop(m0: Mem, m: Mem, r: int, ok: bool)
    requires TopTables(m0.use, r) && Afforded(m0, m, r, TOP - 1, TOP, 0, ok)
    ensures ok && TopTables(m.use, r) && |m.chain| == |m0.chain|
  {
    hide HasTable;
    OnePage(m0.use, r, TOP - 1);
    hide Tables;
  }

  function Least(a: int, b: int): int { if a < b then a else b }

  /** One table for every 512 pages, and one for every 512 of those, but for the two that are there. */
  function ChildTables(n: int): int { Least((n + 511) / 512, 131071) + Least((n + 262143) / 262144, 255) }

  lemma ChildTablesNat(n: int)
    requires 0 <= n
    ensures 0 <= ChildTables(n)
  {
  }

  lemma {:induction false} ChildNeeds(use: seq<Use>, r: int, n: int)
    requires TopTables(use, r) && 0 <= n <= USERTOP
    ensures Tables(use, r, 0, n) == ChildTables(n)
    decreases n
  {
    if n > 0 {
      ChildNeeds(use, r, n - 1);
      ChildAdds(use, r, n - 1);
      hide Added, TopTables;
    }
  }

  lemma ChildAdds(use: seq<Use>, r: int, v: int)
    requires TopTables(use, r) && 0 <= v < USERTOP
    ensures Added(use, r, 0, 0, v) == Least((v + 1 + 511) / 512, 131071) - Least((v + 511) / 512, 131071)
    ensures Added(use, r, 1, 0, v) == Least((v + 1 + 262143) / 262144, 255) - Least((v + 262143) / 262144, 255)
  {
    hide HasTable;
    Ceiling512(v);
    Ceiling262144(v);
    assert HasTable(use, r, 0, v / 512) <==> v / 512 == 131071;
    assert HasTable(use, r, 1, v / 262144) <==> v / 262144 == 255;
  }

  lemma Ceiling512(v: int)
    requires 0 <= v < 0x400_0000
    ensures (v + 1 + 511) / 512 == v / 512 + 1 && (v + 511) / 512 == (if v > 0 && (v - 1) / 512 == v / 512 then v / 512 + 1 else v / 512)
    ensures v / 512 <= 131071
  {
  }

  lemma Ceiling262144(v: int)
    requires 0 <= v < 0x400_0000
    ensures (v + 1 + 262143) / 262144 == v / 262144 + 1
    ensures (v + 262143) / 262144 == (if v > 0 && (v - 1) / 262144 == v / 262144 then v / 262144 + 1 else v / 262144)
    ensures v / 262144 <= 255
  {
  }

  /** The free pages that fork takes for a parent of n pages: the trapframe page, the root, the two tables of the top
      pages, the child's pages, and their tables. */
  function ForkPages(n: int): int { 4 + n + ChildTables(n) }
}
