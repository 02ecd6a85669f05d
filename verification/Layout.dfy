/**
 How a read window is laid out before a page is touched: row groups get the rows
 their values land in, the projection is cut into parts, and a task is one part
 of one row group.
 */
module Layout {
  import opened Common

  /** A row group of the window: file, row group in that file, first result row, rows. */
  datatype Rg = Rg(f: nat, g: nat, off: nat, rows: nat)

  /** A row group of the set, before any window: file, row group, declared rows. */
  datatype Decl = Decl(f: nat, g: nat, rows: int)

  // ---- the window ----

  function Decls(files: seq<seq<int>>, f: nat): seq<Decl>
    requires f <= |files|
  {
    if f == 0 then []
    else Decls(files, f - 1) + FileDecls(f - 1, files[f - 1])
  }

  function FileDecls(f: nat, rows: seq<int>): seq<Decl> {
    seq(|rows|, g requires 0 <= g < |rows| => Decl(f, g, rows[g]))
  }

  predicate InWindow(ds: seq<Decl>, i: nat, g0: nat, g1: nat)
    requires i < |ds|
  {
    g0 <= i < g1 && ds[i].rows > 0
  }

  /** Rows of the window among the first `n` row groups. */
  function Rows(ds: seq<Decl>, g0: nat, g1: nat, n: nat): nat
    requires n <= |ds|
  {
    if n == 0 then 0
    else Rows(ds, g0, g1, n - 1) + if InWindow(ds, n - 1, g0, g1) then ds[n - 1].rows else 0
  }

  function Lay(ds: seq<Decl>, g0: nat, g1: nat, n: nat): seq<Rg>
    requires n <= |ds|
  {
    if n == 0 then []
    else if InWindow(ds, n - 1, g0, g1) then
      var d := ds[n - 1];
      Lay(ds, g0, g1, n - 1) + [Rg(d.f, d.g, Rows(ds, g0, g1, n - 1), d.rows)]
    else Lay(ds, g0, g1, n - 1)
  }

  lemma {:induction false} DeclsPrefix(files: seq<seq<int>>, f: nat, h: nat)
    requires f <= h <= |files|
    ensures Decls(files, f) <= Decls(files, h)
  {
    if f < h {
      DeclsPrefix(files, f, h - 1);
    }
  }

  lemma {:induction false} LayPrefix(ds: seq<Decl>, es: seq<Decl>, g0: nat, g1: nat, n: nat)
    requires n <= |ds| && ds <= es
    ensures Rows(ds, g0, g1, n) == Rows(es, g0, g1, n) && Lay(ds, g0, g1, n) == Lay(es, g0, g1, n)
  {
    if n > 0 {
      LayPrefix(ds, es, g0, g1, n - 1);
    }
  }

  /** The layout loops of `read`: files in order, row groups in file order, one running global number. */
  method LayOut(files: seq<seq<int>>, g0: nat, g1: nat) returns (rgs: seq<Rg>, total: nat)
    ensures var ds := Decls(files, |files|);
            rgs == Lay(ds, g0, g1, |ds|) && total == Rows(ds, g0, g1, |ds|)
  {
    rgs, total := [], 0;
    var g := 0;
    ghost var all := Decls(files, |files|);
    for f := 0 to |files|
      invariant g == |Decls(files, f)| <= |all|
      invariant rgs == Lay(all, g0, g1, g) && total == Rows(all, g0, g1, g)
    {
      ghost var base := g;
      DeclsPrefix(files, f + 1, |files|);
      for i := 0 to |files[f]|
        invariant g == base + i <= |all|
        invariant rgs == Lay(all, g0, g1, g) && total == Rows(all, g0, g1, g)
      {
        assert all[g] == Decls(files, f + 1)[g] == Decl(f, i, files[f][i]);
        if g >= g0 && g < g1 && files[f][i] > 0 {
          rgs := rgs + [Rg(f, i, total, files[f][i])];
          total := total + files[f][i];
        }
        g := g + 1;
      }
    }
  }

  ghost predicate OwnsRow(x: Rg, r: nat) {
    x.off <= r < x.off + x.rows
  }

  ghost predicate Owned(rgs: seq<Rg>, r: nat) {
    exists j :: 0 <= j < |rgs| && OwnsRow(rgs[j], r)
  }

  /** Row groups lie end to end: every row below `total` has exactly one owner, and no other row has any. */
  ghost predicate Tiles(rgs: seq<Rg>, total: nat) {
    && (forall j | 0 <= j < |rgs| :: rgs[j].rows > 0 && rgs[j].off + rgs[j].rows <= total)
    && (forall i, j | 0 <= i < j < |rgs| :: rgs[i].off + rgs[i].rows <= rgs[j].off)
    && (forall r: nat | r < total :: Owned(rgs, r))
  }

  lemma TilesExtend(rgs: seq<Rg>, total: nat, x: Rg)
    requires Tiles(rgs, total) && x.off == total && x.rows > 0
    ensures Tiles(rgs + [x], total + x.rows)
  {
    var all := rgs + [x];
    forall r: nat | r < total + x.rows
      ensures Owned(all, r)
    {
      if r < total {
        assert Owned(rgs, r);
        var j :| 0 <= j < |rgs| && OwnsRow(rgs[j], r);
        assert OwnsRow(all[j], r);
      } else {
        assert OwnsRow(all[|rgs|], r);
      }
    }
  }

  lemma {:induction false} WindowTiles(ds: seq<Decl>, g0: nat, g1: nat, n: nat)
    requires n <= |ds|
    ensures Tiles(Lay(ds, g0, g1, n), Rows(ds, g0, g1, n))
  {
    if n > 0 {
      WindowTiles(ds, g0, g1, n - 1);
      if InWindow(ds, n - 1, g0, g1) {
        var before := Lay(ds, g0, g1, n - 1);
        TilesExtend(before, Rows(ds, g0, g1, n - 1), Lay(ds, g0, g1, n)[|before|]);
      }
    }
  }

  function Shift(rgs: seq<Rg>, rows: nat): seq<Rg> {
    seq(|rgs|, j requires 0 <= j < |rgs| => rgs[j].(off := rgs[j].off + rows))
  }

  lemma ShiftAppends(rgs: seq<Rg>, x: Rg, rows: nat)
    ensures Shift(rgs + [x], rows) == Shift(rgs, rows) + [x.(off := x.off + rows)]
  {}

  /** Reading [a, b) and then [b, c) lays the rows out as reading [a, c) does. */
  lemma {:induction false} WindowsConcatenate(ds: seq<Decl>, a: nat, b: nat, c: nat, n: nat)
    requires a <= b <= c && n <= |ds|
    ensures Rows(ds, a, c, n) == Rows(ds, a, b, n) + Rows(ds, b, c, n)
    ensures Lay(ds, a, c, n) == Lay(ds, a, b, n) + Shift(Lay(ds, b, c, n), Rows(ds, a, b, n))
  {
    if n > 0 {
      WindowsConcatenate(ds, a, b, c, n - 1);
      if n - 1 < b {
        NothingYet(ds, b, c, n);
        assert Shift(Lay(ds, b, c, n), Rows(ds, a, b, n)) == [];
      } else if InWindow(ds, n - 1, b, c) {
        var rest, last := Lay(ds, b, c, n - 1), Lay(ds, b, c, n)[|Lay(ds, b, c, n - 1)|];
        ShiftAppends(rest, last, Rows(ds, a, b, n));
      }
    }
  }

  lemma {:induction false} NothingYet(ds: seq<Decl>, g0: nat, g1: nat, n: nat)
    requires n <= |ds| && n <= g0
    ensures Rows(ds, g0, g1, n) == 0 && Lay(ds, g0, g1, n) == []
  {
    if n > 0 {
      NothingYet(ds, g0, g1, n - 1);
    }
  }

  // ---- cutting a projection into parts ----

  /** `raw` positions decode straight into K; `outs[i]` is column `bat[i]` of the part's own batch. */
  datatype Part = Part(raw: seq<nat>, outs: seq<nat>, bat: seq<nat>, cols: seq<nat>)

  function Insert(x: nat, s: seq<nat>): (r: seq<nat>)
    ensures |r| == |s| + 1
  {
    if s == [] || x <= s[0] then [x] + s else [s[0]] + Insert(x, s[1..])
  }

  /** `sort_unstable` on column numbers. */
  function Sorted(s: seq<nat>): (r: seq<nat>)
    ensures |r| == |s|
  {
    if s == [] then [] else Insert(s[0], Sorted(s[1..]))
  }

  lemma {:induction false} InsertKeeps(x: nat, s: seq<nat>, y: nat)
    ensures y in Insert(x, s) <==> y == x || y in s
  {
    if s == [] || x <= s[0] {
    } else {
      InsertKeeps(x, s[1..], y);
    }
  }

  lemma {:induction false} SortedKeeps(s: seq<nat>, y: nat)
    ensures y in Sorted(s) <==> y in s
  {
    if s != [] {
      SortedKeeps(s[1..], y);
      InsertKeeps(s[0], Sorted(s[1..]), y);
    }
  }

  lemma {:induction false} InsertStrict(x: nat, s: seq<nat>)
    requires Strict(s) && x !in s
    ensures Strict(Insert(x, s))
  {
    if s == [] || x <= s[0] {
    } else {
      InsertStrict(x, s[1..]);
      var rest := Insert(x, s[1..]);
      forall i | 0 <= i < |rest|
        ensures s[0] < rest[i]
      {
        InsertKeeps(x, s[1..], rest[i]);
      }
    }
  }

  lemma {:induction false} SortedStrict(s: seq<nat>)
    requires Distinct(s)
    ensures Strict(Sorted(s))
  {
    if s != [] {
      SortedStrict(s[1..]);
      SortedKeeps(s[1..], s[0]);
      InsertStrict(s[0], Sorted(s[1..]));
    }
  }

  /** `binary_search`: where `c` stands. */
  function IndexOf(s: seq<nat>, c: nat): (i: nat)
    requires c in s
    ensures i < |s| && s[i] == c
  {
    if s[0] == c then 0 else 1 + IndexOf(s[1..], c)
  }

  /** File columns of the given result positions. */
  function Columns(out: seq<nat>, outs: seq<nat>): seq<nat>
    requires Below(outs, |out|)
  {
    seq(|outs|, i requires 0 <= i < |outs| => out[outs[i]])
  }

  function Places(srt: seq<nat>, want: seq<nat>): (bat: seq<nat>)
    requires forall c | c in want :: c in srt
    ensures |bat| == |want| && forall i | 0 <= i < |want| :: bat[i] < |srt| && srt[bat[i]] == want[i]
  {
    if want == [] then [] else [IndexOf(srt, want[0])] + Places(srt, want[1..])
  }

  /** Part of Arrow positions `outs`: its batch holds its file columns in file order. */
  function ArrowPart(out: seq<nat>, outs: seq<nat>): Part
    requires Below(outs, |out|)
  {
    var want := Columns(out, outs);
    var srt := Sorted(want);
    assert forall c | c in want :: c in srt by {
      forall c | c in want ensures c in srt { SortedKeeps(want, c); }
    }
    Part([], outs, Places(srt, want), srt)
  }

  lemma MulDiv(n: nat, k: nat)
    requires k > 0
    ensures k * n / k == n
  {
    DivModUnique(k * n, k, n, 0);
  }

  lemma DivMono(a: nat, b: nat, k: nat)
    requires k > 0 && a <= b
    ensures a / k <= b / k
  {
    assert k * (a / k) <= a <= b < k * (b / k) + k;
    if a / k > b / k {
      MulMono(b / k + 1, a / k, k);
    }
  }

  lemma CutsAscend(n: nat, k: nat, i: nat, j: nat)
    requires k > 0 && i <= j
    ensures i * n / k <= j * n / k
  {
    MulMono(i, j, n);
    DivMono(i * n, j * n, k);
  }

  ghost predicate ValidCuts(cuts: seq<nat>, n: nat) {
    && |cuts| > 0 && cuts[0] == 0 && cuts[|cuts| - 1] == n
    && forall i, j | 0 <= i <= j < |cuts| :: cuts[i] <= cuts[j]
  }

  function SliceBound(n: nat, k: nat, j: nat): nat
    requires k > 0
  {
    j * n / k
  }

  function SliceBounds(n: nat, k: nat): (cuts: seq<nat>)
    requires k > 0
    ensures |cuts| == k + 1
  {
    seq(k + 1, j requires 0 <= j <= k => SliceBound(n, k, j))
  }

  lemma CutsValid(n: nat, k: nat)
    requires k > 0
    ensures ValidCuts(SliceBounds(n, k), n)
  {
    var cuts := SliceBounds(n, k);
    MulDiv(n, k);
    forall i, j | 0 <= i <= j < |cuts|
      ensures cuts[i] <= cuts[j]
    {
      CutsAscend(n, k, i, j);
    }
  }

  /** The bounds j * n / k that cut `n` columns into `k` slices. */
  function Cuts(n: nat, k: nat): (cuts: seq<nat>)
    requires k > 0
    ensures |cuts| == k + 1 && ValidCuts(cuts, n)
  {
    CutsValid(n, k);
    SliceBounds(n, k)
  }

  /** Parts of the first `j` slices, empty slices skipped. */
  function ArrowParts(out: seq<nat>, arw: seq<nat>, cuts: seq<nat>, j: nat): seq<Part>
    requires ValidCuts(cuts, |arw|) && j < |cuts| && Below(arw, |out|)
  {
    if j == 0 then []
    else
      var outs := arw[cuts[j - 1]..cuts[j]];
      ArrowParts(out, arw, cuts, j - 1) + if outs == [] then [] else [ArrowPart(out, outs)]
  }

  function RawParts(ps: seq<nat>): seq<Part> {
    seq(|ps|, i requires 0 <= i < |ps| => Part([ps[i]], [], [], []))
  }

  /** `out[p]` is the file column of result position `p`; `raw[p]` says it is zero-copy. */
  function PartsOf(out: seq<nat>, raw: seq<bool>, k: nat): seq<Part>
    requires |out| == |raw|
  {
    var arw := Positions(raw, false);
    if arw == [] then RawParts(Positions(raw, true))
    else
      var kk := Max(1, Min(k, |arw|));
      RawParts(Positions(raw, true)) + ArrowParts(out, arw, Cuts(|arw|, kk), kk)
  }

  method AddArrowParts(first: seq<Part>, out: seq<nat>, arw: seq<nat>, cuts: seq<nat>) returns (parts: seq<Part>)
    requires ValidCuts(cuts, |arw|) && Below(arw, |out|)
    ensures parts == first + ArrowParts(out, arw, cuts, |cuts| - 1)
  {
    parts := first;
    for j := 0 to |cuts| - 1
      invariant parts == first + ArrowParts(out, arw, cuts, j)
    {
      var outs := arw[cuts[j]..cuts[j + 1]];
      if outs != [] {
        parts := parts + [ArrowPart(out, outs)];
      }
    }
  }

  method Split(out: seq<nat>, raw: seq<bool>, k: nat) returns (parts: seq<Part>)
    requires |out| == |raw|
    ensures parts == PartsOf(out, raw, k)
  {
    parts := RawParts(Positions(raw, true));
    var arw := Positions(raw, false);
    if |arw| == 0 {
      return;
    }
    var kk := Max(1, Min(k, |arw|));
    parts := AddArrowParts(parts, out, arw, Cuts(|arw|, kk));
  }

  // ---- every result column is decoded by exactly one part ----

  predicate Has(x: Part, p: nat) {
    p in x.raw || p in x.outs
  }

  /** The number of parts that fill position `p`. */
  function Fillers(parts: seq<Part>, p: nat): nat {
    if parts == [] then 0
    else Fillers(parts[..|parts| - 1], p) + if Has(parts[|parts| - 1], p) then 1 else 0
  }

  lemma {:induction false} FillersAppend(a: seq<Part>, b: seq<Part>, p: nat)
    ensures Fillers(a + b, p) == Fillers(a, p) + Fillers(b, p)
  {
    if b == [] {
      assert a + b == a;
    } else {
      var n := |b| - 1;
      assert (a + b)[..|a + b| - 1] == a + b[..n];
      FillersAppend(a, b[..n], p);
    }
  }

  lemma {:induction false} RawFillers(ps: seq<nat>, p: nat)
    requires Strict(ps)
    ensures Fillers(RawParts(ps), p) == if p in ps then 1 else 0
  {
    if ps != [] {
      var n := |ps| - 1;
      RawFillers(ps[..n], p);
      assert RawParts(ps)[..n] == RawParts(ps[..n]);
      assert ps == ps[..n] + [ps[n]];
    }
  }

  lemma SplitSlice(arw: seq<nat>, a: nat, b: nat, p: nat)
    requires a <= b <= |arw| && Strict(arw)
    ensures (p in arw[..b] <==> p in arw[..a] || p in arw[a..b]) && !(p in arw[..a] && p in arw[a..b])
  {
    assert arw[..b] == arw[..a] + arw[a..b];
  }

  lemma ArrowPartsStep(out: seq<nat>, arw: seq<nat>, cuts: seq<nat>, j: nat, p: nat)
    requires ValidCuts(cuts, |arw|) && 0 < j < |cuts| && Below(arw, |out|)
    ensures Fillers(ArrowParts(out, arw, cuts, j), p) ==
            Fillers(ArrowParts(out, arw, cuts, j - 1), p) + if p in arw[cuts[j - 1]..cuts[j]] then 1 else 0
  {
    var outs := arw[cuts[j - 1]..cuts[j]];
    var before := ArrowParts(out, arw, cuts, j - 1);
    if outs == [] {
      assert before + [] == before;
    } else {
      var x := ArrowPart(out, outs);
      FillersAppend(before, [x], p);
      assert Fillers([x], p) == if Has(x, p) then 1 else 0;
    }
  }

  lemma {:induction false} ArrowFillers(out: seq<nat>, arw: seq<nat>, cuts: seq<nat>, j: nat, p: nat)
    requires ValidCuts(cuts, |arw|) && j < |cuts| && Below(arw, |out|) && Strict(arw)
    ensures Fillers(ArrowParts(out, arw, cuts, j), p) == if p in arw[..cuts[j]] then 1 else 0
  {
    if j > 0 {
      ArrowFillers(out, arw, cuts, j - 1, p);
      SplitSlice(arw, cuts[j - 1], cuts[j], p);
      ArrowPartsStep(out, arw, cuts, j, p);
    }
  }

  /** For every split factor, each result position is filled by exactly one part. */
  lemma PartsPartitionColumns(out: seq<nat>, raw: seq<bool>, k: nat, p: nat)
    requires |out| == |raw|
    ensures Fillers(PartsOf(out, raw, k), p) == if p < |out| then 1 else 0
  {
    var yes, arw := Positions(raw, true), Positions(raw, false);
    PositionsExact(raw, true);
    PositionsExact(raw, false);
    RawFillers(yes, p);
    if arw != [] {
      var kk := Max(1, Min(k, |arw|));
      var cuts := Cuts(|arw|, kk);
      ArrowFillers(out, arw, cuts, kk, p);
      assert arw[..cuts[kk]] == arw;
      FillersAppend(RawParts(yes), ArrowParts(out, arw, cuts, kk), p);
    }
  }

  /** A part is one zero-copy column, or a non-empty ascending slice of the Arrow ones. */
  ghost predicate GoodPart(out: seq<nat>, raw: seq<bool>, x: Part)
    requires |out| == |raw|
  {
    if x.outs == [] then
      |x.raw| == 1 && x.raw[0] < |out| && raw[x.raw[0]] && x == Part(x.raw, [], [], [])
    else
      && x.raw == [] && Strict(x.outs) && Below(x.outs, |out|)
      && (forall i | 0 <= i < |x.outs| :: !raw[x.outs[i]])
      && x == ArrowPart(out, x.outs)
  }

  lemma {:induction false} ArrowPartsGood(out: seq<nat>, raw: seq<bool>, arw: seq<nat>, cuts: seq<nat>, j: nat)
    requires |out| == |raw| && ValidCuts(cuts, |arw|) && j < |cuts|
    requires Strict(arw) && Below(arw, |out|) && forall i | 0 <= i < |arw| :: !raw[arw[i]]
    ensures forall x | x in ArrowParts(out, arw, cuts, j) :: GoodPart(out, raw, x)
  {
    if j > 0 {
      ArrowPartsGood(out, raw, arw, cuts, j - 1);
    }
  }

  lemma PartsGood(out: seq<nat>, raw: seq<bool>, k: nat)
    requires |out| == |raw|
    ensures forall x | x in PartsOf(out, raw, k) :: GoodPart(out, raw, x)
  {
    var yes, arw := Positions(raw, true), Positions(raw, false);
    PositionsExact(raw, true);
    PositionsExact(raw, false);
    assert forall i | 0 <= i < |yes| :: yes[i] in yes;
    assert forall i | 0 <= i < |arw| :: arw[i] in arw;
    if arw != [] {
      var kk := Max(1, Min(k, |arw|));
      ArrowPartsGood(out, raw, arw, Cuts(|arw|, kk), kk);
    }
  }

  /** A part's batch holds its file columns, in file order, and `bat` names the right one for each position. */
  lemma BatNamesColumn(out: seq<nat>, raw: seq<bool>, k: nat, x: Part)
    requires |out| == |raw| && Distinct(out) && x in PartsOf(out, raw, k)
    ensures Below(x.outs, |out|) && Strict(x.cols) && |x.bat| == |x.outs|
    ensures forall c: nat :: c in x.cols <==> c in Columns(out, x.outs)
    ensures forall i | 0 <= i < |x.outs| :: x.bat[i] < |x.cols| && x.cols[x.bat[i]] == out[x.outs[i]]
  {
    PartsGood(out, raw, k);
    assert GoodPart(out, raw, x);
    if x.outs != [] {
      BatOfSlice(out, x.outs);
    }
  }

  lemma BatOfSlice(out: seq<nat>, outs: seq<nat>)
    requires Below(outs, |out|) && Distinct(out) && Strict(outs)
    ensures var x := ArrowPart(out, outs);
            && Strict(x.cols) && |x.bat| == |outs|
            && (forall c: nat :: c in x.cols <==> c in Columns(out, outs))
            && (forall i | 0 <= i < |outs| :: x.bat[i] < |x.cols| && x.cols[x.bat[i]] == out[outs[i]])
  {
    var want := Columns(out, outs);
    SortedStrict(want);
    forall c: nat
      ensures c in Sorted(want) <==> c in want
    {
      SortedKeeps(want, c);
    }
  }

  // ---- how even the parts are ----

  lemma Regroup(x: nat, q: nat, y: nat, r: nat, k: nat)
    ensures (x * k + y) + (q * k + r) == (x + q) * k + (y + r)
  {}

  lemma FloorStep(a: nat, n: nat, k: nat)
    requires k > 0
    ensures n / k <= (a + n) / k - a / k <= n / k + 1
  {
    var q, r, x, y := n / k, n % k, a / k, a % k;
    Regroup(x, q, y, r, k);
    if y + r < k {
      DivModUnique(a + n, k, x + q, y + r);
    } else {
      Regroup(x + q, 1, y + r - k, 0, k);
      DivModUnique(a + n, k, x + q + 1, y + r - k);
    }
  }

  /** Slices differ by one column at most, and none is empty. */
  lemma SlicesEven(n: nat, k: nat, j: nat)
    requires 0 < k <= n && j < k
    ensures n / k <= Cuts(n, k)[j + 1] - Cuts(n, k)[j] <= n / k + 1 && n / k > 0
  {
    FloorStep(j * n, n, k);
    assert (j + 1) * n == j * n + n;
    assert SliceBound(n, k, j + 1) == (j * n + n) / k && SliceBound(n, k, j) == j * n / k;
    DivMono(k, n, k);
    assert k / k == 1;
  }

  /** There are as many Arrow parts as asked for, as long as there are columns for them. */
  lemma {:induction false} PartsCounted(out: seq<nat>, arw: seq<nat>, k: nat, j: nat)
    requires 0 < k <= |arw| && j <= k && Below(arw, |out|)
    ensures |ArrowParts(out, arw, Cuts(|arw|, k), j)| == j
  {
    if j > 0 {
      PartsCounted(out, arw, k, j - 1);
      SlicesEven(|arw|, k, j - 1);
    }
  }
}
