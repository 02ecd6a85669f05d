/**
 `read` as a whole: the tasks of a laid-out window own disjoint cells that cover
 the result, so whatever the threads do the table is the one the files describe.
 */
module ReadTable {
  import opened Common
  import D = Decode
  import opened Layout
  import opened Windows

  /** A value of the files: (file, row group, file column, row in the group). */
  type Source<!V> = (nat, nat, nat, nat) -> V

  /** Number of row group and part of task `i`, in the order `read` lists them. */
  function TaskRg(parts: seq<Part>, i: nat): nat
    requires parts != []
  {
    i / |parts|
  }

  function TaskPart(parts: seq<Part>, i: nat): nat
    requires parts != []
  {
    i % |parts|
  }

  /** Cells written by part `x` of row group `g`. */
  function CellsOf(g: Rg, x: Part): set<D.Cell> {
    set p: nat, r: nat | p in x.raw + x.outs && g.off <= r < g.off + g.rows :: (p, r)
  }

  lemma CellsOfExact(g: Rg, x: Part, p: nat, r: nat)
    ensures (p, r) in CellsOf(g, x) <==> Has(x, p) && OwnsRow(g, r)
  {}

  function TaskCells(rgs: seq<Rg>, parts: seq<Part>, i: nat): set<D.Cell> {
    if parts != [] && i < |rgs| * |parts| && TaskRg(parts, i) < |rgs|
    then CellsOf(rgs[TaskRg(parts, i)], parts[TaskPart(parts, i)])
    else {}
  }

  /** What the files say belongs in row `r` of result column `p`, which is file column `out[p]`. */
  ghost function CellOf<V>(src: Source<V>, out: seq<nat>, rgs: seq<Rg>, p: nat, r: nat): V
    requires p < |out| && Owned(rgs, r)
  {
    var j :| 0 <= j < |rgs| && OwnsRow(rgs[j], r);
    src(rgs[j].f, rgs[j].g, out[p], r - rgs[j].off)
  }

  lemma CellOfOwner<V>(src: Source<V>, out: seq<nat>, rgs: seq<Rg>, total: nat, p: nat, r: nat, j: nat)
    requires p < |out| && Tiles(rgs, total) && j < |rgs| && OwnsRow(rgs[j], r)
    ensures CellOf(src, out, rgs, p, r) == src(rgs[j].f, rgs[j].g, out[p], r - rgs[j].off)
  {
    assert Owned(rgs, r);
    var i :| 0 <= i < |rgs| && OwnsRow(rgs[i], r)
             && CellOf(src, out, rgs, p, r) == src(rgs[i].f, rgs[i].g, out[p], r - rgs[i].off);
  }

  // ---- the job `read` hands to `decode` ----

  /** Does task `i` give column `p` up as codes? */
  type Lost = (nat, nat) -> bool

  function OwedCells(rgs: seq<Rg>, parts: seq<Part>, lost: Lost, i: nat): set<D.Cell> {
    set c | c in TaskCells(rgs, parts, i) && !lost(i, c.0)
  }

  /** The value task `i` reads from its own row group for a cell: the cell's file column, at the cell's row. */
  function TaskValue<V>(src: Source<V>, out: seq<nat>, rgs: seq<Rg>, parts: seq<Part>, i: nat, c: D.Cell): V {
    if parts != [] && TaskRg(parts, i) < |rgs| && c.0 < |out| && rgs[TaskRg(parts, i)].off <= c.1 then
      var g := rgs[TaskRg(parts, i)];
      src(g.f, g.g, out[c.0], c.1 - g.off)
    else
      src(0, 0, 0, 0)
  }

  function JobOf<V>(src: Source<V>, out: seq<nat>, rgs: seq<Rg>, parts: seq<Part>, lost: Lost, end: nat -> D.End): D.Job<V> {
    D.Job(
      |rgs| * |parts|,
      (i: nat) => TaskCells(rgs, parts, i),
      (i: nat) => OwedCells(rgs, parts, lost, i),
      (i: nat) => (c: D.Cell) => TaskValue(src, out, rgs, parts, i, c),
      end)
  }

  lemma TaskInRange(rgs: seq<Rg>, parts: seq<Part>, i: nat)
    requires i < |rgs| * |parts|
    ensures parts != [] && TaskRg(parts, i) < |rgs| && TaskPart(parts, i) < |parts|
  {
    var n := |parts|;
    if parts != [] && i / n >= |rgs| {
      MulMono(|rgs|, i / n, n);
    }
  }

  lemma {:induction false} OneFiller(parts: seq<Part>, a: nat, b: nat, p: nat)
    requires a < b < |parts| && Has(parts[a], p) && Has(parts[b], p)
    ensures Fillers(parts, p) >= 2
  {
    var n := |parts| - 1;
    if b == n {
      SomeFiller(parts[..n], a, p);
    } else {
      OneFiller(parts[..n], a, b, p);
    }
  }

  lemma {:induction false} SomeFiller(parts: seq<Part>, a: nat, p: nat)
    requires a < |parts| && Has(parts[a], p)
    ensures Fillers(parts, p) >= 1
  {
    if a < |parts| - 1 {
      SomeFiller(parts[..|parts| - 1], a, p);
    }
  }

  lemma {:induction false} FindFiller(parts: seq<Part>, p: nat) returns (a: nat)
    requires Fillers(parts, p) >= 1
    ensures a < |parts| && Has(parts[a], p)
  {
    var n := |parts| - 1;
    if Has(parts[n], p) {
      a := n;
    } else {
      a := FindFiller(parts[..n], p);
    }
  }

  /** Every result column is filled by exactly one part. */
  ghost predicate Partitions(parts: seq<Part>, nc: nat) {
    forall p: nat :: Fillers(parts, p) == if p < nc then 1 else 0
  }

  lemma PartsPartition(out: seq<nat>, raw: seq<bool>, ways: nat)
    requires |out| == |raw|
    ensures Partitions(PartsOf(out, raw, ways), |out|)
  {
    forall p: nat {
      PartsPartitionColumns(out, raw, ways, p);
    }
  }

  lemma SharedCell(rgs: seq<Rg>, total: nat, parts: seq<Part>, nc: nat, gi: nat, gj: nat, xi: nat, xj: nat, p: nat, r: nat)
    requires Tiles(rgs, total) && Partitions(parts, nc)
    requires gi < |rgs| && gj < |rgs| && xi < |parts| && xj < |parts|
    requires (p, r) in CellsOf(rgs[gi], parts[xi]) && (p, r) in CellsOf(rgs[gj], parts[xj])
    ensures gi == gj && xi == xj
  {
    assert Fillers(parts, p) <= 1;
    if xi < xj {
      OneFiller(parts, xi, xj, p);
    } else if xj < xi {
      OneFiller(parts, xj, xi, p);
    }
  }

  lemma SameNumber(i: nat, j: nat, n: nat)
    requires n > 0 && i / n == j / n && i % n == j % n
    ensures i == j
  {
    assert i == n * (i / n) + i % n && j == n * (j / n) + j % n;
  }

  /** No cell is written by two tasks. */
  lemma TasksDisjoint(rgs: seq<Rg>, total: nat, parts: seq<Part>, nc: nat, i: nat, j: nat)
    requires Tiles(rgs, total) && Partitions(parts, nc)
    requires i < j < |rgs| * |parts|
    ensures TaskCells(rgs, parts, i) !! TaskCells(rgs, parts, j)
  {
    TaskInRange(rgs, parts, i);
    TaskInRange(rgs, parts, j);
    forall p: nat, r: nat | (p, r) in TaskCells(rgs, parts, i)
      ensures (p, r) !in TaskCells(rgs, parts, j)
    {
      if (p, r) in TaskCells(rgs, parts, j) {
        SharedCell(rgs, total, parts, nc, TaskRg(parts, i), TaskRg(parts, j), TaskPart(parts, i), TaskPart(parts, j), p, r);
        SameNumber(i, j, |parts|);
      }
    }
  }

  /** Every cell of the result is written by some task. */
  lemma TasksCover(rgs: seq<Rg>, total: nat, parts: seq<Part>, nc: nat, p: nat, r: nat) returns (i: nat)
    requires Tiles(rgs, total) && Partitions(parts, nc) && p < nc && r < total
    ensures i < |rgs| * |parts| && (p, r) in TaskCells(rgs, parts, i)
  {
    assert Fillers(parts, p) == 1;
    var x := FindFiller(parts, p);
    assert Owned(rgs, r);
    var g: nat :| g < |rgs| && OwnsRow(rgs[g], r);
    var n := |parts|;
    i := g * n + x;
    DivModUnique(i, n, g, x);
    MulMono(g + 1, |rgs|, n);
    assert (g + 1) * n == g * n + n;
    CellsOfExact(rgs[g], parts[x], p, r);
  }

  /** A run of `decode`: its tasks, its threads, and the states it passes through from the vectors it starts with. */
  datatype Decoding<!V> = Decoding(
    k: D.Job<V>, threads: nat, table: map<D.Cell, V>, ls: seq<D.Label<V>>, ss: seq<D.Sys<V>>)

  /** The run answers Ok. */
  ghost predicate Fine<V(!new)>(x: Decoding<V>) {
    && x.threads > 0 && D.IsRun(x.k, x.threads, x.table, x.ls, x.ss) && D.Finished(x.ss[|x.ls|])
    && |x.ss[|x.ls|].ts| == x.threads && D.Answered(x.ss[|x.ls|]).Fine?
  }

  /** The vectors it leaves. */
  ghost function Left<V>(x: Decoding<V>): map<D.Cell, V> {
    if |x.ss| > |x.ls| then x.ss[|x.ls|].table else map[]
  }

  ghost predicate CellIs<V>(table: map<D.Cell, V>, p: nat, r: nat, v: V) {
    (p, r) in table && table[(p, r)] == v
  }

  /** None of the tasks gives column `p` up. */
  ghost predicate Keeps<V>(k: D.Job<V>, lost: Lost, p: nat) {
    forall i: nat | i < k.n :: !lost(i, p)
  }

  /**
   A read that answers Ok has filled every cell of the result, but those of columns
   given up: row r of global row group i, which a window [g0, g1) holds when
   g0 <= i < g1, is row r after the positive rows of the row groups of the window
   before it, and holds row r of file column out[p] of that row group of that file, for
   every projection, split factor, window and interleaving.
   */
  lemma ReadFillsTable<V(!new)>(
    src: Source<V>, ds: seq<Decl>, g0: nat, g1: nat, out: seq<nat>, raw: seq<bool>, ways: nat, lost: Lost, end: nat -> D.End,
    x: Decoding<V>, p: nat, i: nat, r: nat, at: nat)
    requires |out| == |raw| && x.k == JobOf(src, out, Lay(ds, g0, g1, |ds|), PartsOf(out, raw, ways), lost, end)
    requires Fine(x) && Keeps(x.k, lost, p)
    requires p < |out| && g0 <= i < g1 && i < |ds| && r < ds[i].rows && at == RowsIn(ds, g0, i) + r
    ensures at < RowsIn(ds, g0, Min(g1, |ds|))
    ensures CellIs(Left(x), p, at, src(ds[i].f, ds[i].g, out[p], r))
  {
    var rgs, j, g := Lay(ds, g0, g1, |ds|), KeptIn(ds, g0, i), Rg(ds[i].f, ds[i].g, RowsIn(ds, g0, i), ds[i].rows);
    WindowHolds(ds, g0, g1, i);
    WindowRows(ds, g0, g1);
    WindowTiles(ds, g0, g1, |ds|);
    PartsPartition(out, raw, ways);
    JobFillsTable(src, out, rgs, Rows(ds, g0, g1, |ds|), PartsOf(out, raw, ways), lost, end, x, p, j, g, r, at);
  }

  lemma JobFillsTable<V(!new)>(
    src: Source<V>, out: seq<nat>, rgs: seq<Rg>, total: nat, parts: seq<Part>, lost: Lost, end: nat -> D.End,
    x: Decoding<V>, p: nat, j: nat, g: Rg, r: nat, at: nat)
    requires Tiles(rgs, total) && Partitions(parts, |out|) && x.k == JobOf(src, out, rgs, parts, lost, end)
    requires Fine(x) && Keeps(x.k, lost, p)
    requires p < |out| && j < |rgs| && rgs[j] == g && r < g.rows && at == g.off + r
    ensures at < total && CellIs(Left(x), p, at, src(g.f, g.g, out[p], r))
  {
    JobsDisjoint(src, out, rgs, total, parts, lost, end);
    var i := TasksCover(rgs, total, parts, |out|, p, at);
    TaskIsLeft(x, i, p, at);
    OwnerIsTask(src, out, rgs, total, parts, i, p, at, j);
    assert at - g.off == r;
  }

  /** What a task owes is left by every run that answers Ok. */
  lemma TaskIsLeft<V(!new)>(x: Decoding<V>, i: nat, p: nat, at: nat)
    requires D.Disjoint(x.k) && Fine(x) && i < x.k.n && (p, at) in x.k.owes(i)
    ensures CellIs(Left(x), p, at, x.k.value(i)((p, at)))
  {
    D.OkMeansSequentialTable(x.k, x.threads, x.table, x.ls, x.ss, i, (p, at));
  }

  /** The one row group that owns row `r` is that of any task that owns a cell of the row. */
  lemma OwnerIsTask<V>(src: Source<V>, out: seq<nat>, rgs: seq<Rg>, total: nat, parts: seq<Part>, i: nat, p: nat, r: nat, j: nat)
    requires Tiles(rgs, total) && (p, r) in TaskCells(rgs, parts, i)
    requires p < |out| && j < |rgs| && OwnsRow(rgs[j], r)
    ensures TaskValue(src, out, rgs, parts, i, (p, r)) == src(rgs[j].f, rgs[j].g, out[p], r - rgs[j].off)
  {
    assert OwnsRow(rgs[TaskRg(parts, i)], r);
    CellOfOwner(src, out, rgs, total, p, r, j);
    CellOfOwner(src, out, rgs, total, p, r, TaskRg(parts, i));
  }

  lemma JobsDisjoint<V>(
    src: Source<V>, out: seq<nat>, rgs: seq<Rg>, total: nat, parts: seq<Part>, lost: Lost, end: nat -> D.End)
    requires Tiles(rgs, total) && Partitions(parts, |out|)
    ensures D.Disjoint(JobOf(src, out, rgs, parts, lost, end))
  {
    var k := JobOf(src, out, rgs, parts, lost, end);
    forall i, j | 0 <= i < j < k.n
      ensures k.cells(i) !! k.cells(j)
    {
      TasksDisjoint(rgs, total, parts, |out|, i, j);
    }
  }

  lemma JoinLeft<V>(src: Source<V>, out: seq<nat>, left: seq<Rg>, cut: nat, whole: seq<Rg>, total: nat, p: nat, r: nat)
    requires p < |out| && Tiles(left, cut) && Tiles(whole, total) && left <= whole && r < cut
    ensures Owned(left, r) && Owned(whole, r) && CellOf(src, out, whole, p, r) == CellOf(src, out, left, p, r)
  {
    assert Owned(left, r);
    var j: nat :| j < |left| && OwnsRow(left[j], r);
    CellOfOwner(src, out, left, cut, p, r, j);
    assert OwnsRow(whole[j], r);
    CellOfOwner(src, out, whole, total, p, r, j);
  }

  lemma OwnerShifts(left: seq<Rg>, cut: nat, right: seq<Rg>, r: nat, j: nat)
    requires cut <= r && j < |right| && OwnsRow(right[j], r - cut)
    ensures var whole := left + Shift(right, cut);
            whole[|left| + j] == right[j].(off := right[j].off + cut) && OwnsRow(whole[|left| + j], r)
  {}

  lemma JoinRight<V>(
    src: Source<V>, out: seq<nat>, left: seq<Rg>, cut: nat, right: seq<Rg>, rest: nat, whole: seq<Rg>, p: nat, r: nat)
    requires p < |out| && Tiles(right, rest) && Tiles(whole, cut + rest) && whole == left + Shift(right, cut)
    requires cut <= r < cut + rest
    ensures Owned(right, r - cut) && Owned(whole, r)
    ensures CellOf(src, out, whole, p, r) == CellOf(src, out, right, p, r - cut)
  {
    assert Owned(right, r - cut);
    var j: nat :| j < |right| && OwnsRow(right[j], r - cut);
    OwnerShifts(left, cut, right, r, j);
    JoinAt(src, out, left, cut, right, rest, whole, p, r, j);
  }

  lemma JoinAt<V>(
    src: Source<V>, out: seq<nat>, left: seq<Rg>, cut: nat, right: seq<Rg>, rest: nat, whole: seq<Rg>, p: nat, r: nat, j: nat)
    requires p < |out| && Tiles(right, rest) && Tiles(whole, cut + rest)
    requires cut <= r && j < |right| && |left| + j < |whole|
    requires OwnsRow(right[j], r - cut) && OwnsRow(whole[|left| + j], r)
    requires whole[|left| + j] == right[j].(off := right[j].off + cut)
    ensures Owned(right, r - cut) && Owned(whole, r)
    ensures CellOf(src, out, whole, p, r) == CellOf(src, out, right, p, r - cut)
  {
    CellOfOwner(src, out, right, rest, p, r - cut, j);
    CellOfOwner(src, out, whole, cut + rest, p, r, |left| + j);
  }

  /** Row r of the window [a, c) is row r of [a, b), or row r - |[a, b)| of [b, c). */
  lemma WindowsJoin<V>(src: Source<V>, out: seq<nat>, ds: seq<Decl>, a: nat, b: nat, c: nat, p: nat, r: nat)
    requires p < |out| && a <= b <= c && r < Rows(ds, a, c, |ds|)
    ensures var n, cut := |ds|, Rows(ds, a, b, |ds|);
            && Owned(Lay(ds, a, c, n), r)
            && (if r < cut then
                  Owned(Lay(ds, a, b, n), r)
                  && CellOf(src, out, Lay(ds, a, c, n), p, r) == CellOf(src, out, Lay(ds, a, b, n), p, r)
                else
                  Owned(Lay(ds, b, c, n), r - cut)
                  && CellOf(src, out, Lay(ds, a, c, n), p, r) == CellOf(src, out, Lay(ds, b, c, n), p, r - cut))
  {
    var n := |ds|;
    WindowsConcatenate(ds, a, b, c, n);
    WindowTiles(ds, a, b, n);
    WindowTiles(ds, b, c, n);
    WindowTiles(ds, a, c, n);
    var cut, rest := Rows(ds, a, b, n), Rows(ds, b, c, n);
    if r < cut {
      JoinLeft(src, out, Lay(ds, a, b, n), cut, Lay(ds, a, c, n), cut + rest, p, r);
    } else {
      JoinRight(src, out, Lay(ds, a, b, n), cut, Lay(ds, b, c, n), rest, Lay(ds, a, c, n), p, r);
    }
  }
}
