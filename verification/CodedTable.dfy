/**
 A read with codes on, as a whole: whatever the threads do and whatever the page hashes
 were, a symbol column ends up saying what the files' own symbols say, as a pair or read
 again.
 */
module CodedTable {
  import opened Common
  import C = Codes
  import R = CodesRead
  import opened Layout
  import opened ReadTable
  import S = Symbols
  import opened Windows

  /** A symbol column of the files: the batches of each row group, and the dictionaries behind them. */
  datatype SymColumn = SymColumn(contents: nat -> seq<Option<Bytes>>, batches: (nat, nat) -> seq<R.Batch>)

  ghost predicate Valid(x: SymColumn) {
    forall f, g, b | b in x.batches(f, g) :: R.ValidBatch(b)
  }

  /** The symbols of a row group. */
  ghost function SymsOf(x: SymColumn, f: nat, g: nat): seq<S.Sym>
    requires Valid(x)
  {
    R.AllSymbols(x.contents, x.batches(f, g))
  }

  /** Can the row group be read as codes? */
  ghost predicate Fits(x: SymColumn, cd: C.Codes, f: nat, g: nat) {
    forall b | b in x.batches(f, g) :: R.Fits(x.contents, cd, b)
  }

  /** `codes` are what a row group that fits is read as. */
  ghost predicate Reads(x: SymColumn, cd: C.Codes, codes: (nat, nat) -> seq<int>)
    requires Valid(x)
  {
    forall f, g | Fits(x, cd, f, g) :: R.Shown(R.Pair(cd, codes(f, g))) == SymsOf(x, f, g)
  }

  /** File column `c` holds, as codes where a row group fits, what `x` does. */
  ghost predicate CodeSource(src: Source<int>, c: nat, x: SymColumn, cd: C.Codes, codes: (nat, nat) -> seq<int>) {
    forall f, g, r: nat | Fits(x, cd, f, g) && r < |codes(f, g)| :: src(f, g, c, r) == codes(f, g)[r]
  }

  ghost predicate SymSource(src: Source<S.Sym>, c: nat, x: SymColumn)
    requires Valid(x)
  {
    forall f, g, r: nat | r < |SymsOf(x, f, g)| :: src(f, g, c, r) == SymsOf(x, f, g)[r]
  }

  /** A task gives column `p` up exactly when its row group does not fit. */
  ghost predicate LostExactly(lost: Lost, x: SymColumn, cd: C.Codes, rgs: seq<Rg>, parts: seq<Part>, p: nat) {
    forall i: nat | i < |rgs| * |parts| && parts != [] && TaskRg(parts, i) < |rgs| && Has(parts[TaskPart(parts, i)], p) ::
      lost(i, p) <==> !Fits(x, cd, rgs[TaskRg(parts, i)].f, rgs[TaskRg(parts, i)].g)
  }

  /** Every row group of the window holds as many symbols as the footer says. */
  ghost predicate RowsRight(x: SymColumn, rgs: seq<Rg>)
    requires Valid(x)
  {
    forall j | 0 <= j < |rgs| :: |SymsOf(x, rgs[j].f, rgs[j].g)| == rgs[j].rows
  }

  lemma OneOwner(rgs: seq<Rg>, total: nat, r: nat, j: nat, k: nat)
    requires Tiles(rgs, total) && j < |rgs| && k < |rgs| && OwnsRow(rgs[j], r) && OwnsRow(rgs[k], r)
    ensures j == k
  {}

  /** When nobody gives the column up every row group fits. */
  lemma KeptMeansFits(
    x: SymColumn, cd: C.Codes, rgs: seq<Rg>, total: nat, parts: seq<Part>, nc: nat, lost: Lost, p: nat, r: nat, j: nat)
    requires Tiles(rgs, total) && Partitions(parts, nc) && p < nc && j < |rgs| && OwnsRow(rgs[j], r)
    requires LostExactly(lost, x, cd, rgs, parts, p) && forall i | 0 <= i < |rgs| * |parts| :: !lost(i, p)
    ensures Fits(x, cd, rgs[j].f, rgs[j].g)
  {
    var i := TasksCover(rgs, total, parts, nc, p, r);
    var k := TaskRg(parts, i);
    assert OwnsRow(rgs[k], r);
    OneOwner(rgs, total, r, j, k);
    assert Has(parts[TaskPart(parts, i)], p);
  }

  /** Kept as a pair: `D[C]` at a row is the row's own symbol. */
  lemma PairSays(
    x: SymColumn, cd: C.Codes, codes: (nat, nat) -> seq<int>, src: Source<int>,
    out: seq<nat>, rgs: seq<Rg>, total: nat, parts: seq<Part>, lost: Lost, end: nat -> D.End,
    first: Decoding<int>, p: nat, j: nat, g: Rg, r: nat, at: nat)
    requires Tiles(rgs, total) && Partitions(parts, |out|) && first.k == JobOf(src, out, rgs, parts, lost, end)
    requires p < |out| && Valid(x) && Reads(x, cd, codes) && CodeSource(src, out[p], x, cd, codes)
    requires Fine(first) && Keeps(first.k, lost, p) && LostExactly(lost, x, cd, rgs, parts, p) && RowsRight(x, rgs)
    requires j < |rgs| && rgs[j] == g && r < g.rows && at == g.off + r
    ensures |SymsOf(x, g.f, g.g)| == g.rows
    ensures (p, at) in Left(first) && R.Lookup(cd, Left(first)[(p, at)]) == SymsOf(x, g.f, g.g)[r]
  {
    JobFillsTable(src, out, rgs, total, parts, lost, end, first, p, j, g, r, at);
    KeptMeansFits(x, cd, rgs, total, parts, |out|, lost, p, at, j);
    ShownAt(x, cd, codes, g.f, g.g, r);
  }

  /** Read again: the row holds the row's own symbol. */
  lemma AgainSays(
    x: SymColumn, syms: Source<S.Sym>, c: nat, rgs: seq<Rg>, total: nat, parts: seq<Part>, none: Lost, end: nat -> D.End,
    second: Decoding<S.Sym>, j: nat, g: Rg, r: nat, at: nat)
    requires Tiles(rgs, total) && Partitions(parts, 1) && second.k == JobOf(syms, [c], rgs, parts, none, end)
    requires Valid(x) && SymSource(syms, c, x) && RowsRight(x, rgs) && Fine(second) && Keeps(second.k, none, 0)
    requires j < |rgs| && rgs[j] == g && r < g.rows && at == g.off + r
    ensures |SymsOf(x, g.f, g.g)| == g.rows && CellIs(Left(second), 0, at, SymsOf(x, g.f, g.g)[r])
  {
    JobFillsTable(syms, [c], rgs, total, parts, none, end, second, 0, j, g, r, at);
  }

  lemma ShownAt(x: SymColumn, cd: C.Codes, codes: (nat, nat) -> seq<int>, f: nat, g: nat, r: nat)
    requires Valid(x) && Reads(x, cd, codes) && Fits(x, cd, f, g) && r < |SymsOf(x, f, g)|
    ensures r < |codes(f, g)| && R.Lookup(cd, codes(f, g)[r]) == SymsOf(x, f, g)[r]
  {
    assert R.Shown(R.Pair(cd, codes(f, g))) == SymsOf(x, f, g);
    assert R.Shown(R.Pair(cd, codes(f, g)))[r] == R.Lookup(cd, codes(f, g)[r]);
  }

  /**
   What a read with codes on starts from: `codes` and `syms` are file column `c`'s codes
   and symbols, and the tasks give column `p` up where the row group does not fit.
   */
  ghost predicate Sources(
    x: SymColumn, cd: C.Codes, codes: (nat, nat) -> seq<int>, src: Source<int>, syms: Source<S.Sym>, c: nat,
    rgs: seq<Rg>, parts: seq<Part>, lost: Lost, p: nat)
  {
    && Valid(x) && Reads(x, cd, codes) && CodeSource(src, c, x, cd, codes) && SymSource(syms, c, x)
    && LostExactly(lost, x, cd, rgs, parts, p) && RowsRight(x, rgs)
  }

  /** A first `decode`, and where some task gave column `p` up a second of that column alone, which gives nothing up. */
  ghost predicate BothFine(first: Decoding<int>, lost: Lost, second: Decoding<S.Sym>, none: Lost, p: nat) {
    Fine(first) && (Keeps(first.k, lost, p) || (Fine(second) && Keeps(second.k, none, 0)))
  }

  /** Row `at` of the column then says symbol `r` of row group `g` of file `f`: `D[C]`, or the symbol read again. */
  ghost predicate Shows(
    x: SymColumn, cd: C.Codes, kept: bool, first: Decoding<int>, second: Decoding<S.Sym>, p: nat, at: nat,
    f: nat, g: nat, rows: nat, r: nat)
  {
    && Valid(x) && |SymsOf(x, f, g)| == rows && r < rows
    && if kept then (p, at) in Left(first) && R.Lookup(cd, Left(first)[(p, at)]) == SymsOf(x, f, g)[r]
       else CellIs(Left(second), 0, at, SymsOf(x, f, g)[r])
  }

  lemma CodedRow(
    x: SymColumn, cd: C.Codes, codes: (nat, nat) -> seq<int>, src: Source<int>, syms: Source<S.Sym>,
    out: seq<nat>, rgs: seq<Rg>, total: nat, parts: seq<Part>, lost: Lost, end: nat -> D.End, first: Decoding<int>,
    parts': seq<Part>, none: Lost, end': nat -> D.End, second: Decoding<S.Sym>,
    p: nat, j: nat, g: Rg, r: nat, at: nat)
    requires Tiles(rgs, total) && Partitions(parts, |out|) && Partitions(parts', 1) && p < |out|
    requires first.k == JobOf(src, out, rgs, parts, lost, end) && second.k == JobOf(syms, [out[p]], rgs, parts', none, end')
    requires Sources(x, cd, codes, src, syms, out[p], rgs, parts, lost, p) && BothFine(first, lost, second, none, p)
    requires j < |rgs| && rgs[j] == g && r < g.rows && at == g.off + r
    ensures Shows(x, cd, Keeps(first.k, lost, p), first, second, p, at, g.f, g.g, g.rows, r)
  {
    if Keeps(first.k, lost, p) {
      PairSays(x, cd, codes, src, out, rgs, total, parts, lost, end, first, p, j, g, r, at);
    } else {
      AgainSays(x, syms, out[p], rgs, total, parts', none, end', second, j, g, r, at);
    }
  }

  /**
   A symbol column after `read` with codes on: where no task gave it up, its codes looked
   up in the union; else what the second `decode` left.  Either way symbol r of global
   row group i of the window is in row r after the positive rows of the window before i,
   for every interleaving of both decodes.
   */
  lemma CodedReadIsPlain(
    x: SymColumn, cd: C.Codes, codes: (nat, nat) -> seq<int>, src: Source<int>, syms: Source<S.Sym>,
    ds: seq<Decl>, g0: nat, g1: nat, out: seq<nat>, raw: seq<bool>, ways: nat,
    rgs: seq<Rg>, parts: seq<Part>, lost: Lost, end: nat -> D.End, first: Decoding<int>,
    parts': seq<Part>, none: Lost, end': nat -> D.End, second: Decoding<S.Sym>,
    p: nat, i: nat, r: nat, at: nat)
    requires |out| == |raw| && p < |out| && rgs == Lay(ds, g0, g1, |ds|)
    requires parts == PartsOf(out, raw, ways) && parts' == PartsOf([out[p]], [false], 1)
    requires first.k == JobOf(src, out, rgs, parts, lost, end) && second.k == JobOf(syms, [out[p]], rgs, parts', none, end')
    requires Sources(x, cd, codes, src, syms, out[p], rgs, parts, lost, p) && BothFine(first, lost, second, none, p)
    requires g0 <= i < g1 && i < |ds| && r < ds[i].rows && at == RowsIn(ds, g0, i) + r
    ensures Shows(x, cd, Keeps(first.k, lost, p), first, second, p, at, ds[i].f, ds[i].g, ds[i].rows, r)
  {
    WindowHolds(ds, g0, g1, i);
    WindowTiles(ds, g0, g1, |ds|);
    PartsPartition(out, raw, ways);
    PartsPartition([out[p]], [false], 1);
    CodedRow(x, cd, codes, src, syms, out, rgs, Rows(ds, g0, g1, |ds|), parts, lost, end, first, parts', none, end', second,
             p, KeptIn(ds, g0, i), Rg(ds[i].f, ds[i].g, RowsIn(ds, g0, i), ds[i].rows), r, at);
  }
}
