/**
 The value passes of the reader: the in-place spread of the zero-copy path, its
 batching loop, and the copy of the Arrow path.
 */
module Kernels {
  import opened Common
  import opened Machine

  // ---- one value ----

  /** `patch`'s closure: checked unit scale, floor test, wrapping subtraction. */
  function ShiftVal(k: Kind, sh: int, mul: int, w: int): int {
    var lo := Wrap(k, Null(k) + sh);
    if mul != 1 && !Fits(k, w * mul) then Null(k)
    else
      var x := if mul == 1 then w else w * mul;
      if sh == 0 then x
      else if x < lo then Null(k)
      else Wrap(k, x - sh)
  }

  /** What the value means: scaled and shifted, or the null when either leaves the machine. */
  function Meaning(k: Kind, sh: int, mul: int, w: int): int {
    if Fits(k, w * mul) && Fits(k, w * mul - sh) then w * mul - sh else Null(k)
  }

  /** The floor test is exactly the condition under which the subtraction would leave the machine range. */
  lemma FloorExact(k: Kind, sh: int, x: int)
    requires 0 <= sh <= MaxOf(k) && Fits(k, x)
    ensures x < Wrap(k, Null(k) + sh) <==> !Fits(k, x - sh)
  {}

  lemma ShiftIsMeaning(k: Kind, sh: int, mul: int, w: int)
    requires 0 <= sh <= MaxOf(k) && Fits(k, w)
    ensures ShiftVal(k, sh, mul, w) == Meaning(k, sh, mul, w)
  {
    if Fits(k, w * mul) {
      FloorExact(k, sh, w * mul);
    }
  }

  /** A date and the timestamp of its midnight read as the same instant, whenever both can be told. */
  lemma DayIsMidnight(d: int)
    requires Fits(I32, d)
    requires var t := d * 86_400 * 1_000_000_000;
             Meaning(I32, DAY2000, 1, d) != Null(I32) && Fits(I64, t) && Meaning(I64, NS2000, 1, t) != Null(I64)
    ensures var t := d * 86_400 * 1_000_000_000;
            Meaning(I64, NS2000, 1, t) == Meaning(I32, DAY2000, 1, d) * 86_400 * 1_000_000_000
  {
    ShiftsAgree();
  }

  /** The conversion a column applies to each of its values, and the null it leaves for the rest. */
  datatype Conv = Conv(f: int -> int, nullv: int)

  function ConvOf(k: Kind, sh: int, mul: int): Conv {
    Conv(w => ShiftVal(k, sh, mul, w), Null(k))
  }

  // ---- a column chunk ----

  /** Non-null levels among the first `i`. */
  function Rank(levels: seq<int>, maxdef: int, i: nat): (r: nat)
    requires i <= |levels|
    ensures r <= i
  {
    if i == 0 then 0 else Rank(levels, maxdef, i - 1) + if levels[i - 1] == maxdef then 1 else 0
  }

  lemma {:induction false} RankMonotone(levels: seq<int>, maxdef: int, i: nat, j: nat)
    requires i < j <= |levels|
    ensures Rank(levels, maxdef, i) + (if levels[i] == maxdef then 1 else 0) <= Rank(levels, maxdef, j)
  {
    if i < j - 1 {
      RankMonotone(levels, maxdef, i, j - 1);
    }
  }

  lemma {:induction false} RankSlice(levels: seq<int>, maxdef: int, a: nat, b: nat, i: nat)
    requires a <= b <= |levels| && i <= b - a
    ensures Rank(levels[a..b], maxdef, i) == Rank(levels, maxdef, a + i) - Rank(levels, maxdef, a)
  {
    if i > 0 {
      RankSlice(levels, maxdef, a, b, i - 1);
    }
  }

  /** Row `i` of a chunk given by its levels and its packed non-null values. */
  function Row(cv: Conv, levels: seq<int>, maxdef: int, values: seq<int>, i: nat): int
    requires i < |levels| && Rank(levels, maxdef, |levels|) <= |values|
  {
    if levels[i] == maxdef then
      RankMonotone(levels, maxdef, i, |levels|);
      cv.f(values[Rank(levels, maxdef, i)])
    else cv.nullv
  }

  /**
   Spread, convert and null-fill d[p..p+n] in place, backwards: the packed values
   sit at the front, and none is overwritten before it has been read.
   */
  method SpreadBack(d: array<int>, p: nat, n: nat, vals: nat, cv: Conv, dl: seq<int>, maxdef: int)
    requires p + n <= d.Length && n <= |dl| && Rank(dl, maxdef, n) == vals
    modifies d
    ensures forall j | 0 <= j < d.Length && !(p <= j < p + n) :: d[j] == old(d[j])
    ensures forall j | p <= j < p + n ::
              d[j] == if dl[j - p] == maxdef then cv.f(old(d[p + Rank(dl, maxdef, j - p)])) else cv.nullv
  {
    var vp := vals;
    var i: nat := n;
    while i > 0
      invariant i <= n && vp == Rank(dl, maxdef, i)
      invariant forall j | 0 <= j < d.Length && !(p + i <= j < p + n) :: d[j] == old(d[j])
      invariant forall j | p + i <= j < p + n ::
                  d[j] == if dl[j - p] == maxdef then cv.f(old(d[p + Rank(dl, maxdef, j - p)])) else cv.nullv
    {
      i := i - 1;
      if dl[i] == maxdef {
        vp := vp - 1;
        d[p + i] := cv.f(d[p + vp]);
      } else {
        d[p + i] := cv.nullv;
      }
    }
  }

  method ConvertAll(d: array<int>, p: nat, n: nat, cv: Conv)
    requires p + n <= d.Length
    modifies d
    ensures forall j | 0 <= j < d.Length && !(p <= j < p + n) :: d[j] == old(d[j])
    ensures forall j | p <= j < p + n :: d[j] == cv.f(old(d[j]))
  {
    for i := p to p + n
      invariant forall j | 0 <= j < d.Length && !(p <= j < i) :: d[j] == old(d[j])
      invariant forall j | p <= j < i :: d[j] == cv.f(old(d[j]))
    {
      d[i] := cv.f(d[i]);
    }
  }

  /** Do the first `n` rows have to be spread? */
  predicate Gaps(n: nat, vals: nat, defs: Option<seq<int>>) {
    defs.Some? && vals < n && |defs.value| >= n
  }

  /** What `Patch` makes of a window of packed values. */
  function Patched(window: seq<int>, vals: nat, cv: Conv, defs: Option<seq<int>>, maxdef: int): (r: seq<int>)
    requires Gaps(|window|, vals, defs) ==> Rank(defs.value, maxdef, |window|) == vals
    ensures |r| == |window|
  {
    if Gaps(|window|, vals, defs) then
      seq(|window|, i requires 0 <= i < |window| =>
        if defs.value[i] == maxdef then cv.f(window[Rank(defs.value, maxdef, i)]) else cv.nullv)
    else
      seq(|window|, i requires 0 <= i < |window| => cv.f(window[i]))
  }

  /** `idle` says the conversion changes nothing, so a window without gaps is left alone. */
  ghost predicate MayRest(cv: Conv, idle: bool) {
    idle ==> forall x :: cv.f(x) == x
  }

  method PatchWith(
    d: array<int>, p: nat, n: nat, vals: nat, cv: Conv, idle: bool, defs: Option<seq<int>>, maxdef: int)
    requires p + n <= d.Length && MayRest(cv, idle)
    requires Gaps(n, vals, defs) ==> Rank(defs.value, maxdef, n) == vals
    modifies d
    ensures d[p..p + n] == Patched(old(d[p..p + n]), vals, cv, defs, maxdef)
    ensures forall j | 0 <= j < d.Length && !(p <= j < p + n) :: d[j] == old(d[j])
  {
    if Gaps(n, vals, defs) {
      SpreadBack(d, p, n, vals, cv, defs.value, maxdef);
    } else if !idle {
      ConvertAll(d, p, n, cv);
    } else {
      ghost var window := d[p..p + n];
      assert forall i | 0 <= i < n :: cv.f(window[i]) == window[i];
    }
  }

  lemma NoShiftRests(k: Kind, sh: int, mul: int)
    ensures MayRest(ConvOf(k, sh, mul), sh == 0 && mul == 1)
  {}

  /** The whole pass as `patch` is called: unit scale `mul`, epoch shift `sh`, null of width `k`. */
  method Patch(
    d: array<int>, p: nat, n: nat, vals: nat, k: Kind, sh: int, mul: int, defs: Option<seq<int>>, maxdef: int)
    requires p + n <= d.Length
    requires Gaps(n, vals, defs) ==> Rank(defs.value, maxdef, n) == vals
    modifies d
    ensures d[p..p + n] == Patched(old(d[p..p + n]), vals, ConvOf(k, sh, mul), defs, maxdef)
    ensures forall j | 0 <= j < d.Length && !(p <= j < p + n) :: d[j] == old(d[j])
  {
    NoShiftRests(k, sh, mul);
    PatchWith(d, p, n, vals, ConvOf(k, sh, mul), sh == 0 && mul == 1, defs, maxdef);
  }

  // ---- the batching loop of the zero-copy path ----

  const BATCH_ROWS: nat := 0x1_0000

  /**
   The page decoder, as far as its contract goes: it hands out the chunk's levels
   in order, in batches no larger than asked for, and writes the batch's non-null
   values at the front of the window it was given.  It may leave anything in the
   rest of that window, may stop early, may report fewer levels than records, and may
   fail, which here also covers a values buffer that has moved.  `short` remembers too
   few levels for a batch with nulls, `failed` a failure.  An `honest` one does none of
   this.
   */
  class Decoder {
    const levels: seq<int>
    const values: seq<int>
    const maxdef: int
    const honest: bool
    var at: nat
    var short: bool
    var failed: bool

    ghost predicate Valid()
      reads this
    {
      && maxdef >= 0 && at <= |levels| && |values| == Rank(levels, maxdef, |levels|)
      && (maxdef == 0 ==> forall i | 0 <= i < |levels| :: levels[i] == 0)
      && (honest ==> !Broken())
    }

    predicate Broken()
      reads this
    {
      short || failed
    }

    constructor (levels: seq<int>, values: seq<int>, maxdef: int, honest: bool)
      requires |values| == Rank(levels, maxdef, |levels|)
      requires maxdef >= 0 && (maxdef == 0 ==> forall i | 0 <= i < |levels| :: levels[i] == 0)
      ensures Valid() && at == 0 && !Broken()
      ensures this.levels == levels && this.values == values && this.maxdef == maxdef && this.honest == honest
    {
      this.levels, this.values, this.maxdef, this.honest := levels, values, maxdef, honest;
      this.at, this.short, this.failed := 0, false, false;
    }

    method ReadRecords(d: array<int>, p: nat, want: nat) returns (ok: bool, recs: nat, vals: nat, defs: seq<int>)
      requires Valid() && p + want <= d.Length
      modifies this`at, this`short, this`failed, d
      ensures Valid() && (failed <==> old(failed) || !ok)
      ensures !ok ==> at == old(at) && short == old(short)
      ensures forall j | 0 <= j < d.Length && !(p <= j < p + want) :: d[j] == old(d[j])
      ensures ok ==> recs <= want && at == old(at) + recs
      ensures ok && honest ==> recs == Min(want, |levels| - old(at)) && |defs| == recs
      ensures ok ==> short == (old(short) || (maxdef > 0 && vals < recs && |defs| < recs))
      ensures ok ==> vals == Rank(levels, maxdef, at) - Rank(levels, maxdef, old(at)) && vals <= recs
      ensures ok ==> defs <= levels[old(at)..at] && Rank(levels, maxdef, at) <= |values|
      ensures ok ==> forall j | p <= j < p + vals :: d[j] == values[Rank(levels, maxdef, old(at)) + j - p]
    {
      if !honest {
        var fails: bool := *;
        if fails {
          failed := true;
          return false, 0, 0, [];
        }
      }
      recs, vals, defs := HandOut(d, p, want);
      ok := true;
    }

    /** A read that works. */
    method HandOut(d: array<int>, p: nat, want: nat) returns (recs: nat, vals: nat, defs: seq<int>)
      requires Valid() && p + want <= d.Length
      modifies this`at, this`short, d
      ensures Valid() && recs <= want && at == old(at) + recs
      ensures honest ==> recs == Min(want, |levels| - old(at)) && |defs| == recs
      ensures short == (old(short) || (maxdef > 0 && vals < recs && |defs| < recs))
      ensures vals == Rank(levels, maxdef, at) - Rank(levels, maxdef, old(at)) && vals <= recs
      ensures defs <= levels[old(at)..at] && Rank(levels, maxdef, at) <= |values|
      ensures forall j | p <= j < p + vals :: d[j] == values[Rank(levels, maxdef, old(at)) + j - p]
      ensures forall j | 0 <= j < d.Length && !(p <= j < p + want) :: d[j] == old(d[j])
    {
      var told;
      recs, told := Decide(want);
      var start := Rank(levels, maxdef, at);
      RankSlice(levels, maxdef, at, at + recs, recs);
      if at + recs < |levels| {
        RankMonotone(levels, maxdef, at + recs, |levels|);
      }
      vals := Rank(levels, maxdef, at + recs) - start;
      CopyIn(values, start, vals, d, p);
      defs := levels[at..at + told];
      SlicePrefix(levels, at, told, recs);
      at := at + recs;
      short := short || (maxdef > 0 && vals < recs && told < recs);
    }

    /** How much to hand out, and of how much to tell the levels. */
    method Decide(want: nat) returns (recs: nat, told: nat)
      requires Valid()
      ensures told <= recs <= want && at + recs <= |levels|
      ensures honest ==> recs == told == Min(want, |levels| - at)
    {
      recs := Min(want, |levels| - at);
      told := recs;
      if !honest {
        recs, told :| 0 <= told <= recs <= want && at + recs <= |levels|;
      }
    }
  }

  lemma SlicePrefix(s: seq<int>, a: nat, m: nat, n: nat)
    requires m <= n && a + n <= |s|
    ensures s[a..a + m] <= s[a..a + n]
  {
    var x, y := s[a..a + m], s[a..a + n];
    forall i | 0 <= i < m
      ensures x[i] == y[i]
    {
      assert x[i] == s[a + i] && y[i] == s[a + i];
    }
    SameFront(x, y);
  }

  lemma SameFront(x: seq<int>, y: seq<int>)
    requires |x| <= |y| && forall i | 0 <= i < |x| :: x[i] == y[i]
    ensures x <= y
  {}

  method CopyIn(values: seq<int>, start: nat, n: nat, d: array<int>, p: nat)
    requires start + n <= |values| && p + n <= d.Length
    modifies d
    ensures forall j | p <= j < p + n :: d[j] == values[start + j - p]
    ensures forall j | 0 <= j < d.Length && !(p <= j < p + n) :: d[j] == old(d[j])
  {
    for i := p to p + n
      invariant forall j | p <= j < i :: d[j] == values[start + j - p]
      invariant forall j | 0 <= j < d.Length && !(p <= j < i) :: d[j] == old(d[j])
    {
      d[i] := values[start + i - p];
    }
  }

  /** A batch of records is no nulls at all exactly when it holds as many values. */
  lemma {:induction false} RankFull(levels: seq<int>, maxdef: int, n: nat)
    requires n <= |levels|
    ensures Rank(levels, maxdef, n) == n <==> forall i | 0 <= i < n :: levels[i] == maxdef
    ensures forall i: nat | i <= n && Rank(levels, maxdef, n) == n :: Rank(levels, maxdef, i) == i
  {
    if n > 0 {
      RankFull(levels, maxdef, n - 1);
    }
  }

  /** Rows [0, n) of a chunk, decoded at d[off..]. */
  ghost predicate Decoded(
    cells: seq<int>, off: nat, n: nat, cv: Conv, levels: seq<int>, maxdef: int, values: seq<int>)
    requires Rank(levels, maxdef, |levels|) <= |values|
  {
    && off + n <= |cells| && n <= |levels|
    && forall i: nat | i < n :: cells[off + i] == Row(cv, levels, maxdef, values, i)
  }

  /** A window the decoder filled from row `a` of a chunk on, with the levels it told. */
  ghost predicate Filled(
    window: seq<int>, vals: nat, levels: seq<int>, maxdef: int, values: seq<int>, a: nat, defs: Option<seq<int>>)
  {
    var n := |window|;
    && a + n <= |levels| && |values| == Rank(levels, maxdef, |levels|)
    && vals == Rank(levels, maxdef, a + n) - Rank(levels, maxdef, a) <= n
    && Rank(levels, maxdef, a) + vals <= |values|
    && (forall j | 0 <= j < vals :: window[j] == values[Rank(levels, maxdef, a) + j])
    && (vals < n ==> defs == Some(levels[a..a + n]))
  }

  lemma FilledRanks(
    window: seq<int>, vals: nat, levels: seq<int>, maxdef: int, values: seq<int>, a: nat, defs: Option<seq<int>>)
    requires Filled(window, vals, levels, maxdef, values, a, defs)
    ensures Gaps(|window|, vals, defs) ==> Rank(defs.value, maxdef, |window|) == vals
  {
    RankSlice(levels, maxdef, a, a + |window|, |window|);
  }

  /** A batch that is spread: its rows by rank are the chunk's. */
  lemma SpreadRow(
    window: seq<int>, vals: nat, cv: Conv,
    levels: seq<int>, maxdef: int, values: seq<int>, a: nat, defs: Option<seq<int>>, i: nat)
    requires Filled(window, vals, levels, maxdef, values, a, defs) && i < |window| && vals < |window|
    requires Gaps(|window|, vals, defs) ==> Rank(defs.value, maxdef, |window|) == vals
    ensures Patched(window, vals, cv, defs, maxdef)[i] == Row(cv, levels, maxdef, values, a + i)
  {
    var n := |window|;
    var part := levels[a..a + n];
    RankSlice(levels, maxdef, a, a + n, i);
    RankMonotone(levels, maxdef, a + i, |levels|);
    RankMonotone(part, maxdef, i, n);
  }

  /** A batch without a null: every row is the value in its place. */
  lemma FullRow(
    window: seq<int>, vals: nat, cv: Conv,
    levels: seq<int>, maxdef: int, values: seq<int>, a: nat, defs: Option<seq<int>>, i: nat)
    requires Filled(window, vals, levels, maxdef, values, a, defs) && i < |window| && vals == |window|
    ensures Patched(window, vals, cv, defs, maxdef)[i] == Row(cv, levels, maxdef, values, a + i)
  {
    var n := |window|;
    var part := levels[a..a + n];
    RankSlice(levels, maxdef, a, a + n, i);
    RankSlice(levels, maxdef, a, a + n, n);
    RankMonotone(levels, maxdef, a + i, |levels|);
    RankFull(part, maxdef, n);
    assert part[i] == levels[a + i];
  }

  /** Patching a batch's window gives the batch's rows of the chunk. */
  lemma BatchRow(
    window: seq<int>, vals: nat, cv: Conv,
    levels: seq<int>, maxdef: int, values: seq<int>, a: nat, defs: Option<seq<int>>, i: nat)
    requires Filled(window, vals, levels, maxdef, values, a, defs) && i < |window|
    requires Gaps(|window|, vals, defs) ==> Rank(defs.value, maxdef, |window|) == vals
    ensures Patched(window, vals, cv, defs, maxdef)[i] == Row(cv, levels, maxdef, values, a + i)
  {
    if vals < |window| {
      SpreadRow(window, vals, cv, levels, maxdef, values, a, defs, i);
    } else {
      FullRow(window, vals, cv, levels, maxdef, values, a, defs, i);
    }
  }

  lemma BatchRows(
    window: seq<int>, now: seq<int>, vals: nat, cv: Conv,
    levels: seq<int>, maxdef: int, values: seq<int>, a: nat, defs: Option<seq<int>>)
    requires Filled(window, vals, levels, maxdef, values, a, defs)
    requires Gaps(|window|, vals, defs) ==> Rank(defs.value, maxdef, |window|) == vals
    requires now == Patched(window, vals, cv, defs, maxdef)
    ensures forall i | 0 <= i < |now| :: now[i] == Row(cv, levels, maxdef, values, a + i)
  {
    forall i | 0 <= i < |now|
      ensures now[i] == Row(cv, levels, maxdef, values, a + i)
    {
      BatchRow(window, vals, cv, levels, maxdef, values, a, defs, i);
    }
  }

  /** A batch read into d[p..], refused when it has nulls but not a level for every record. */
  method ReadBatch(rd: Decoder, d: array<int>, p: nat, want: nat)
    returns (ok: bool, n: nat, vals: nat, told: Option<seq<int>>)
    requires rd.Valid() && p + want <= d.Length
    modifies rd`at, rd`short, rd`failed, d
    ensures rd.Valid() && n <= want && rd.at == old(rd.at) + n
    ensures rd.honest ==> ok && n == Min(want, |rd.levels| - old(rd.at))
    ensures rd.Broken() <==> old(rd.Broken()) || !ok
    ensures ok ==> Filled(d[p..p + n], vals, rd.levels, rd.maxdef, rd.values, old(rd.at), told)
    ensures forall j | 0 <= j < d.Length && !(p <= j < p + want) :: d[j] == old(d[j])
  {
    var defs;
    ok, n, vals, defs := rd.ReadRecords(d, p, want);
    if !ok {
      return false, 0, 0, None;
    }
    told := if rd.maxdef > 0 then Some(defs) else None;
    ok := !(rd.maxdef > 0 && vals < n && |defs| < n);
    if ok && vals < n {
      FewerMeansNullable(rd.levels, rd.maxdef, old(rd.at), n);
      assert defs == rd.levels[old(rd.at)..old(rd.at) + n];
    }
  }

  /** One batch decoded and patched: rows [done, done + recs) of the chunk are in place. */
  method RawBatch(rd: Decoder, d: array<int>, off: nat, done: nat, want: nat, cv: Conv, idle: bool)
    returns (recs: Option<nat>)
    requires rd.Valid() && off + done + want <= d.Length && rd.at == done && MayRest(cv, idle)
    modifies rd`at, rd`short, rd`failed, d
    ensures rd.Valid() && rd.at >= done
    ensures rd.Broken() <==> old(rd.Broken()) || recs.None?
    ensures rd.honest && recs.Some? ==> recs.value == Min(want, |rd.levels| - done)
    ensures recs.Some? ==> recs.value <= want && rd.at == done + recs.value
    ensures recs.Some? ==> forall j | off + done <= j < off + done + recs.value ::
              d[j] == Row(cv, rd.levels, rd.maxdef, rd.values, j - off)
    ensures forall j | 0 <= j < d.Length && !(off + done <= j < off + done + want) :: d[j] == old(d[j])
  {
    var p := off + done;
    var ok, n, vals, told := ReadBatch(rd, d, p, want);
    if !ok {
      return None;
    }
    ghost var window := d[p..p + n];
    FilledRanks(window, vals, rd.levels, rd.maxdef, rd.values, done, told);
    PatchWith(d, p, n, vals, cv, idle, told, rd.maxdef);
    ghost var now := d[p..p + n];
    BatchRows(window, now, vals, cv, rd.levels, rd.maxdef, rd.values, done, told);
    assert forall j | p <= j < p + n :: d[j] == now[j - p];
    recs := Some(n);
  }

  lemma FewerMeansNullable(levels: seq<int>, maxdef: int, a: nat, n: nat)
    requires a + n <= |levels| && Rank(levels, maxdef, a + n) - Rank(levels, maxdef, a) < n
    requires maxdef >= 0 && (maxdef == 0 ==> forall i | 0 <= i < |levels| :: levels[i] == 0)
    ensures maxdef > 0
  {
    RankSlice(levels, maxdef, a, a + n, n);
    RankFull(levels[a..a + n], maxdef, n);
  }

  /** `raw_col`: batch by batch, the whole chunk in one pass. */
  method RawCol(rd: Decoder, d: array<int>, off: nat, rows: nat, k: Kind, sh: int, mul: int) returns (r: Option<nat>)
    requires rd.Valid() && rd.at == 0 && !rd.Broken() && off + rows <= d.Length
    modifies rd`at, rd`short, rd`failed, d
    ensures r.None? <==> rd.Broken()
    ensures r.Some? ==> r.value == rd.at
    ensures rd.honest ==> r == Some(Min(rows, |rd.levels|))
    ensures r.Some? ==> r.value <= rows
    ensures r.Some? ==> Decoded(d[..], off, r.value, ConvOf(k, sh, mul), rd.levels, rd.maxdef, rd.values)
    ensures forall j | 0 <= j < d.Length && !(off <= j < off + rows) :: d[j] == old(d[j])
  {
    var cv := ConvOf(k, sh, mul);
    NoShiftRests(k, sh, mul);
    r := RawLoop(rd, d, off, rows, cv, sh == 0 && mul == 1);
  }

  method RawLoop(rd: Decoder, d: array<int>, off: nat, rows: nat, cv: Conv, idle: bool) returns (r: Option<nat>)
    requires rd.Valid() && rd.at == 0 && !rd.Broken() && off + rows <= d.Length && MayRest(cv, idle)
    modifies rd`at, rd`short, rd`failed, d
    ensures r.None? <==> rd.Broken()
    ensures r.Some? ==> r.value == rd.at
    ensures rd.honest ==> r == Some(Min(rows, |rd.levels|))
    ensures r.Some? ==> r.value <= rows
    ensures r.Some? ==> Decoded(d[..], off, r.value, cv, rd.levels, rd.maxdef, rd.values)
    ensures forall j | 0 <= j < d.Length && !(off <= j < off + rows) :: d[j] == old(d[j])
  {
    var done := 0;
    while true
      invariant done <= rows && rd.Valid() && rd.at == done && !rd.Broken()
      invariant forall j | off <= j < off + done :: d[j] == Row(cv, rd.levels, rd.maxdef, rd.values, j - off)
      invariant forall j | 0 <= j < d.Length && !(off <= j < off + rows) :: d[j] == old(d[j])
      decreases rows - done
    {
      var want := Min(BATCH_ROWS, rows - done);
      if want == 0 {
        break;
      }
      var recs := RawBatch(rd, d, off, done, want, cv, idle);
      if recs.None? {
        return None;
      }
      done := done + recs.value;
      if recs.value == 0 {
        break;
      }
    }
    r := Some(done);
  }
}
