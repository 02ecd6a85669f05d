/**
 Which row groups a window of a set holds, and where their rows land, from the files'
 own numbering and without the layout loops.
 */
module Windows {
  import opened Common
  import opened Layout

  /** Row groups of the files before `f`. */
  function FirstOf(files: seq<seq<int>>, f: nat): nat
    requires f <= |files|
  {
    if f == 0 then 0 else FirstOf(files, f - 1) + |files[f - 1]|
  }

  /** Global numbers run through the files in argument order, and through each file's row groups in file order. */
  lemma {:induction false} GlobalNumber(files: seq<seq<int>>, n: nat, f: nat, g: nat)
    requires f < n <= |files| && g < |files[f]|
    ensures |Decls(files, n)| == FirstOf(files, n) && FirstOf(files, f) + g < FirstOf(files, n)
    ensures Decls(files, n)[FirstOf(files, f) + g] == Decl(f, g, files[f][g])
  {
    DeclsLength(files, n - 1);
    if f < n - 1 {
      GlobalNumber(files, n - 1, f, g);
    }
  }

  lemma {:induction false} DeclsLength(files: seq<seq<int>>, n: nat)
    requires n <= |files|
    ensures |Decls(files, n)| == FirstOf(files, n)
  {
    if n > 0 {
      DeclsLength(files, n - 1);
    }
  }

  /** The positive rows of ds[a..b]. */
  function RowsIn(ds: seq<Decl>, a: nat, b: nat): nat
    requires a <= b <= |ds|
  {
    if a == b then 0 else RowsIn(ds, a, b - 1) + Max(ds[b - 1].rows, 0)
  }

  /** How many of ds[a..b] have rows. */
  function KeptIn(ds: seq<Decl>, a: nat, b: nat): nat
    requires a <= b <= |ds|
  {
    if a == b then 0 else KeptIn(ds, a, b - 1) + if ds[b - 1].rows > 0 then 1 else 0
  }

  /** The laid-out window up to row group `n`, in numbers. */
  lemma {:induction false} LayCounts(ds: seq<Decl>, g0: nat, g1: nat, n: nat)
    requires g0 <= n <= |ds| && n <= g1
    ensures |Lay(ds, g0, g1, n)| == KeptIn(ds, g0, n) && Rows(ds, g0, g1, n) == RowsIn(ds, g0, n)
  {
    if n > g0 {
      LayCounts(ds, g0, g1, n - 1);
    } else {
      NothingYet(ds, g0, g1, n);
    }
  }

  lemma {:induction false} NothingAfter(ds: seq<Decl>, g0: nat, g1: nat, m: nat, n: nat)
    requires g1 <= m <= n <= |ds|
    ensures Lay(ds, g0, g1, n) == Lay(ds, g0, g1, m) && Rows(ds, g0, g1, n) == Rows(ds, g0, g1, m)
  {
    if m < n {
      NothingAfter(ds, g0, g1, m, n - 1);
    }
  }

  lemma {:induction false} LayGrows(ds: seq<Decl>, g0: nat, g1: nat, m: nat, n: nat)
    requires m <= n <= |ds|
    ensures Lay(ds, g0, g1, m) <= Lay(ds, g0, g1, n)
  {
    if m < n {
      LayGrows(ds, g0, g1, m, n - 1);
    }
  }

  /**
   Row group i of the window, when it has rows, is laid out as itself, after the rows of
   those before it, at the place its number among them gives it.
   */
  lemma WindowHolds(ds: seq<Decl>, g0: nat, g1: nat, i: nat)
    requires g0 <= i < g1 && i < |ds| && ds[i].rows > 0
    ensures var rgs := Lay(ds, g0, g1, |ds|);
            && KeptIn(ds, g0, i) < |rgs|
            && rgs[KeptIn(ds, g0, i)] == Rg(ds[i].f, ds[i].g, RowsIn(ds, g0, i), ds[i].rows)
  {
    LayCounts(ds, g0, g1, i);
    LayGrows(ds, g0, g1, i + 1, |ds|);
  }

  /** ... and there is nothing else: place j is that of exactly one row group of the window. */
  lemma {:induction false} WindowOnly(ds: seq<Decl>, g0: nat, g1: nat, n: nat, j: nat) returns (i: nat)
    requires n <= |ds| && j < |Lay(ds, g0, g1, n)|
    ensures g0 <= i < g1 && i < n && ds[i].rows > 0 && KeptIn(ds, g0, i) == j
  {
    if InWindow(ds, n - 1, g0, g1) && j == |Lay(ds, g0, g1, n - 1)| {
      i := n - 1;
      LayCounts(ds, g0, g1, n - 1);
    } else {
      i := WindowOnly(ds, g0, g1, n - 1, j);
    }
  }

  /** Places keep the order of the row groups. */
  lemma {:induction false} PlacesAscend(ds: seq<Decl>, g0: nat, a: nat, b: nat)
    requires g0 <= a < b <= |ds| && ds[a].rows > 0
    ensures KeptIn(ds, g0, a) < KeptIn(ds, g0, b) && RowsIn(ds, g0, a) + ds[a].rows <= RowsIn(ds, g0, b)
  {
    if a < b - 1 {
      PlacesAscend(ds, g0, a, b - 1);
    }
  }

  /** The rows of a whole window. */
  lemma WindowRows(ds: seq<Decl>, g0: nat, g1: nat)
    requires g0 <= g1
    ensures Rows(ds, g0, g1, |ds|) ==
            if g0 >= |ds| then 0 else RowsIn(ds, g0, Min(g1, |ds|))
  {
    if g0 >= |ds| {
      NothingYet(ds, g0, g1, |ds|);
    } else {
      var m := Min(g1, |ds|);
      LayCounts(ds, g0, g1, m);
      if g1 < |ds| {
        NothingAfter(ds, g0, g1, m, |ds|);
      }
    }
  }
}
