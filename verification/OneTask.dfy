/**
 One decode task as a thread runs it: the columns of one part of one row group,
 decoded straight into the shared vectors or copied there batch by batch.

 The vectors hold machine words: numbers, codes or symbol pointers.
 */
module OneTask {
  import opened Common
  import K = Kernels
  import opened Layout
  import M = Machine
  import opened ReadTable

  /** What converting one column of a batch does: values to store, the column given up as codes, or an error. */
  datatype Converted = Words(vals: seq<int>) | GivesUp | Fails

  datatype Batch = Batch(rows: nat, cols: seq<Converted>)

  /** The value of (file column, row) in the row group. */
  type Values = (nat, nat) -> int

  ghost predicate Separate(cols: seq<array<int>>) {
    forall p, q | 0 <= p < q < |cols| :: cols[p] != cols[q]
  }

  /** Room for rows [off, off + rows) in every column. */
  predicate Room(cols: seq<array<int>>, off: nat, rows: nat) {
    forall p | 0 <= p < |cols| :: off + rows <= cols[p].Length
  }

  function Rows(bs: seq<Result<Batch>>): nat {
    if bs == [] then 0
    else
      var b := bs[|bs| - 1];
      Rows(bs[..|bs| - 1]) + if b.Ok? then b.value.rows else 0
  }

  lemma {:induction false} RowsGrow(bs: seq<Result<Batch>>, k: nat)
    requires k <= |bs|
    ensures Rows(bs[..k]) <= Rows(bs)
    decreases |bs| - k
  {
    if k < |bs| {
      assert bs[..k + 1][..k] == bs[..k];
      RowsGrow(bs, k + 1);
    } else {
      assert bs[..k] == bs;
    }
  }

  /** A batch holds the projection's columns, from row `at` of the row group on. */
  ghost predicate Holds(b: Batch, proj: seq<nat>, at: nat, val: Values) {
    && |b.cols| == |proj|
    && forall c | 0 <= c < |proj| && b.cols[c].Words? ::
         |b.cols[c].vals| == b.rows && forall r | 0 <= r < b.rows :: b.cols[c].vals[r] == val(proj[c], at + r)
  }

  /** The reader hands out the row group's rows in order, and never more than `rows`. */
  ghost predicate Delivers(bs: seq<Result<Batch>>, proj: seq<nat>, rows: nat, val: Values) {
    && Rows(bs) <= rows
    && forall k | 0 <= k < |bs| && bs[k].Ok? :: Holds(bs[k].value, proj, Rows(bs[..k]), val)
  }

  ghost predicate Converts(b: Batch, bat: seq<nat>) {
    forall i | 0 <= i < |bat| :: bat[i] < |b.cols| && !b.cols[bat[i]].Fails?
  }

  /** Is column `c` given up by one of the batches? */
  ghost predicate Gave(bs: seq<Result<Batch>>, c: nat) {
    exists k :: 0 <= k < |bs| && GaveIn(bs[k], c)
  }

  predicate GaveIn(b: Result<Batch>, c: nat) {
    b.Ok? && c < |b.value.cols| && b.value.cols[c].GivesUp?
  }

  lemma GaveMore(bs: seq<Result<Batch>>, b: Result<Batch>, c: nat)
    ensures Gave(bs + [b], c) <==> Gave(bs, c) || GaveIn(b, c)
  {
    assert (bs + [b])[|bs|] == b;
    if Gave(bs, c) {
      var k :| 0 <= k < |bs| && GaveIn(bs[k], c);
      assert (bs + [b])[k] == bs[k];
    }
  }

  method PutColumn(d: array<int>, at: nat, vals: seq<int>)
    requires at + |vals| <= d.Length
    modifies d
    ensures forall j | at <= j < at + |vals| :: d[j] == vals[j - at]
    ensures forall j | 0 <= j < d.Length && !(at <= j < at + |vals|) :: d[j] == old(d[j])
  {
    for i := at to at + |vals|
      invariant forall j | at <= j < i :: d[j] == vals[j - at]
      invariant forall j | 0 <= j < d.Length && !(at <= j < i) :: d[j] == old(d[j])
    {
      d[i] := vals[i - at];
    }
  }

  /** One batch into the part's columns, at row `at` of the result. */
  method PutBatch(cols: seq<array<int>>, outs: seq<nat>, bat: seq<nat>, at: nat, b: Batch)
    returns (ok: bool, gave: set<nat>)
    requires Separate(cols) && Room(cols, at, b.rows)
    requires |bat| == |outs| && Strict(outs) && Below(outs, |cols|) && Below(bat, |b.cols|)
    requires forall c | 0 <= c < |b.cols| && b.cols[c].Words? :: |b.cols[c].vals| == b.rows
    modifies cols
    ensures ok <==> Converts(b, bat)
    ensures ok ==> forall i | 0 <= i < |outs| :: outs[i] in gave <==> b.cols[bat[i]].GivesUp?
    ensures gave <= set p | p in outs
    ensures ok ==> forall i, j | 0 <= i < |outs| && at <= j < at + b.rows && b.cols[bat[i]].Words? ::
              cols[outs[i]][j] == b.cols[bat[i]].vals[j - at]
    ensures forall p, j | 0 <= p < |cols| && 0 <= j < cols[p].Length && !(p in outs && at <= j < at + b.rows) ::
              cols[p][j] == old(cols[p][j])
  {
    gave := {};
    for i := 0 to |outs|
      invariant forall h | 0 <= h < i :: !b.cols[bat[h]].Fails?
      invariant forall p | p in gave :: p in outs[..i]
      invariant forall h | 0 <= h < i :: outs[h] in gave <==> b.cols[bat[h]].GivesUp?
      invariant forall h, j | 0 <= h < i && at <= j < at + b.rows && b.cols[bat[h]].Words? ::
                  cols[outs[h]][j] == b.cols[bat[h]].vals[j - at]
      invariant forall p, j | 0 <= p < |cols| && 0 <= j < cols[p].Length && !(p in outs && at <= j < at + b.rows) ::
                  cols[p][j] == old(cols[p][j])
    {
      assert outs[i] in outs && outs[i] !in outs[..i];
      assert outs[..i + 1] == outs[..i] + [outs[i]];
      match b.cols[bat[i]] {
        case Fails => return false, gave;
        case GivesUp => gave := gave + {outs[i]};
        case Words(vals) => PutColumn(cols[outs[i]], at, vals);
      }
    }
    ok := true;
  }

  // ---- the Arrow half of a task ----

  ghost predicate Fit(cols: seq<array<int>>, part: Part) {
    |part.bat| == |part.outs| && Strict(part.outs) && Below(part.outs, |cols|) && Below(part.bat, |part.cols|)
  }

  /** The task's first `n` rows are in place in every column not given up by `bs`. */
  ghost predicate FilledTo(cols: seq<array<int>>, part: Part, off: nat, n: nat, bs: seq<Result<Batch>>, val: Values)
    requires Fit(cols, part) && Room(cols, off, n)
    reads cols
  {
    forall i, j | 0 <= i < |part.outs| && off <= j < off + n && !Gave(bs, part.bat[i]) ::
      cols[part.outs[i]][j] == val(part.cols[part.bat[i]], j - off)
  }

  /** `gave` holds the positions given up by `bs`. */
  ghost predicate GaveExactly(part: Part, bs: seq<Result<Batch>>, gave: set<nat>) {
    && |part.bat| == |part.outs| && gave <= (set p | p in part.outs)
    && forall i | 0 <= i < |part.outs| :: part.outs[i] in gave <==> Gave(bs, part.bat[i])
  }

  /** One more batch after those of `bs`. */
  method ArrowNext(
    cols: seq<array<int>>, part: Part, off: nat, ghost bs: seq<Result<Batch>>, n: nat, b: Batch, gave: set<nat>,
    ghost val: Values) returns (ok: bool, gave': set<nat>)
    requires Separate(cols) && Fit(cols, part) && Room(cols, off, n + b.rows)
    requires FilledTo(cols, part, off, n, bs, val) && Holds(b, part.cols, n, val) && GaveExactly(part, bs, gave)
    modifies cols
    ensures ok <==> Converts(b, part.bat)
    ensures ok ==> FilledTo(cols, part, off, n + b.rows, bs + [Ok(b)], val) && GaveExactly(part, bs + [Ok(b)], gave')
    ensures forall p, j | 0 <= p < |cols| && 0 <= j < cols[p].Length && !(p in part.outs && off + n <= j < off + n + b.rows) ::
              cols[p][j] == old(cols[p][j])
  {
    var more;
    ok, more := PutBatch(cols, part.outs, part.bat, off + n, b);
    gave' := gave + more;
    forall i | 0 <= i < |part.outs|
      ensures Gave(bs + [Ok(b)], part.bat[i]) <==> Gave(bs, part.bat[i]) || GaveIn(Ok(b), part.bat[i])
    {
      GaveMore(bs, Ok(b), part.bat[i]);
    }
  }

  ghost predicate AllConvert(bs: seq<Result<Batch>>, bat: seq<nat>) {
    forall k | 0 <= k < |bs| :: bs[k].Ok? && Converts(bs[k].value, bat)
  }

  /** Batches end to end, refused unless they deliver just the rows the footer says. */
  method ArrowTask(
    cols: seq<array<int>>, part: Part, off: nat, rows: nat, bs: seq<Result<Batch>>, ghost val: Values)
    returns (ok: bool, gave: set<nat>)
    requires Separate(cols) && Fit(cols, part) && Room(cols, off, rows)
    requires Delivers(bs, part.cols, rows, val)
    modifies cols
    ensures ok <==> Rows(bs) == rows && AllConvert(bs, part.bat)
    ensures ok ==> FilledTo(cols, part, off, rows, bs, val) && GaveExactly(part, bs, gave)
    ensures forall p, j | 0 <= p < |cols| && 0 <= j < cols[p].Length && !(p in part.outs && off <= j < off + rows) ::
              cols[p][j] == old(cols[p][j])
  {
    var n := 0;
    gave := {};
    for k := 0 to |bs|
      invariant n == Rows(bs[..k]) <= rows
      invariant AllConvert(bs[..k], part.bat)
      invariant FilledTo(cols, part, off, n, bs[..k], val) && GaveExactly(part, bs[..k], gave)
      invariant forall p, j | 0 <= p < |cols| && 0 <= j < cols[p].Length && !(p in part.outs && off <= j < off + rows) ::
                  cols[p][j] == old(cols[p][j])
    {
      if bs[k].Err? {
        return false, gave;
      }
      assert bs[..k + 1] == bs[..k] + [bs[k]];
      RowsGrow(bs, k + 1);
      assert Holds(bs[k].value, part.cols, Rows(bs[..k]), val);
      var good;
      good, gave := ArrowNext(cols, part, off, bs[..k], n, bs[k].value, gave, val);
      if !good {
        return false, gave;
      }
      n := n + bs[k].value.rows;
    }
    assert bs[..|bs|] == bs;
    ok := n == rows;
  }

  // ---- a task of either kind ----

  /** How a zero-copy column is decoded: its page decoder, and the conversion of its values. */
  datatype ZeroCopy = ZeroCopy(rd: K.Decoder, kind: M.Kind, sh: int, mul: int)

  /** The chunk behind the decoder holds file column `c`. */
  ghost predicate Stores(z: ZeroCopy, c: nat, val: Values)
    reads z.rd
  {
    && z.rd.Valid()
    && forall r: nat | r < |z.rd.levels| ::
         K.Row(K.ConvOf(z.kind, z.sh, z.mul), z.rd.levels, z.rd.maxdef, z.rd.values, r) == val(c, r)
  }

  /** Cell (p, r) belongs to the part's task in row group `g`. */
  predicate Mine(part: Part, g: Rg, p: nat, r: nat) {
    Has(part, p) && g.off <= r < g.off + g.rows
  }

  /** Every cell of the task in a column not given up holds its own file column's value. */
  ghost predicate Right(cols: seq<array<int>>, out: seq<nat>, part: Part, g: Rg, gave: set<nat>, val: Values)
    requires |cols| == |out|
    reads cols
  {
    forall p: nat, r: nat | p < |cols| && r < cols[p].Length && Mine(part, g, p, r) && p !in gave ::
      cols[p][r] == val(out[p], r - g.off)
  }

  /** `opens` is false when the file has no single leaf for the column, or its reader cannot be opened. */
  method OneRaw(cols: seq<array<int>>, out: seq<nat>, part: Part, g: Rg, opens: bool, z: ZeroCopy, ghost val: Values)
    returns (ok: bool)
    requires |cols| == |out| && |part.raw| == 1 && part.outs == [] && part.raw[0] < |cols|
    requires Separate(cols) && Room(cols, g.off, g.rows)
    requires Stores(z, out[part.raw[0]], val) && z.rd.at == 0 && !z.rd.Broken()
    modifies cols, z.rd`at, z.rd`short, z.rd`failed
    ensures ok <==> opens && !z.rd.Broken() && z.rd.at == g.rows
    ensures ok ==> Right(cols, out, part, g, {}, val)
    ensures forall p: nat, r: nat | p < |cols| && r < cols[p].Length && !Mine(part, g, p, r) :: cols[p][r] == old(cols[p][r])
  {
    if !opens {
      return false;
    }
    var q := part.raw[0];
    assert q in part.raw;
    ok := RawTask(cols[q], g, z, out[q], val);
  }

  /** The chunk decoded straight into the task's rows of one vector. */
  method RawTask(d: array<int>, g: Rg, z: ZeroCopy, ghost c: nat, ghost val: Values) returns (ok: bool)
    requires g.off + g.rows <= d.Length && Stores(z, c, val) && z.rd.at == 0 && !z.rd.Broken()
    modifies d, z.rd`at, z.rd`short, z.rd`failed
    ensures ok <==> !z.rd.Broken() && z.rd.at == g.rows
    ensures ok ==> forall r | g.off <= r < g.off + g.rows :: d[r] == val(c, r - g.off)
    ensures forall r | 0 <= r < d.Length && !(g.off <= r < g.off + g.rows) :: d[r] == old(d[r])
  {
    var n := K.RawCol(z.rd, d, g.off, g.rows, z.kind, z.sh, z.mul);
    ok := n.Some? && n.value == g.rows;
    if ok {
      forall r | g.off <= r < g.off + g.rows
        ensures d[r] == val(c, r - g.off)
      {
        var i: nat := r - g.off;
        assert d[..][g.off + i] == d[r];
      }
    }
  }

  method OneArrow(cols: seq<array<int>>, out: seq<nat>, part: Part, g: Rg, bs: seq<Result<Batch>>, ghost val: Values)
    returns (ok: bool, gave: set<nat>)
    requires |cols| == |out| && part.raw == [] && Fit(cols, part)
    requires forall i | 0 <= i < |part.outs| :: part.cols[part.bat[i]] == out[part.outs[i]]
    requires Separate(cols) && Room(cols, g.off, g.rows) && Delivers(bs, part.cols, g.rows, val)
    modifies cols
    ensures ok <==> Rows(bs) == g.rows && AllConvert(bs, part.bat)
    ensures ok ==> Right(cols, out, part, g, gave, val) && GaveExactly(part, bs, gave)
    ensures forall p: nat, r: nat | p < |cols| && r < cols[p].Length && !Mine(part, g, p, r) :: cols[p][r] == old(cols[p][r])
  {
    ok, gave := ArrowTask(cols, part, g.off, g.rows, bs, val);
    if ok {
      forall p: nat, r: nat | p < |cols| && r < cols[p].Length && Mine(part, g, p, r) && p !in gave
        ensures cols[p][r] == val(out[p], r - g.off)
      {
        var i :| 0 <= i < |part.outs| && part.outs[i] == p;
      }
    }
  }

  /**
   `one`: on success every result column of the part, but those given up, holds its own
   file column in the task's rows; failed or not, no other cell of the result has changed.
   */
  method One(
    cols: seq<array<int>>, out: seq<nat>, raw: seq<bool>, k: nat, part: Part, g: Rg,
    opens: bool, z: ZeroCopy, bs: seq<Result<Batch>>, ghost val: Values) returns (ok: bool, gave: set<nat>)
    requires |cols| == |out| == |raw| && Distinct(out) && part in PartsOf(out, raw, k)
    requires Separate(cols) && Room(cols, g.off, g.rows) && z.rd.at == 0 && !z.rd.Broken()
    requires forall p | p in part.raw && p < |out| :: Stores(z, out[p], val)
    requires Delivers(bs, part.cols, g.rows, val)
    modifies cols, z.rd`at, z.rd`short, z.rd`failed
    ensures ok <==> if part.raw != [] then opens && !z.rd.Broken() && z.rd.at == g.rows
                    else Rows(bs) == g.rows && AllConvert(bs, part.bat)
    ensures ok ==> Right(cols, out, part, g, gave, val) && GaveExactly(part, bs, gave)
    ensures forall p: nat, r: nat | p < |cols| && r < cols[p].Length && !Mine(part, g, p, r) :: cols[p][r] == old(cols[p][r])
  {
    PartsGood(out, raw, k);
    assert GoodPart(out, raw, part);
    BatNamesColumn(out, raw, k, part);
    if |part.raw| > 0 {
      assert part.raw[0] in part.raw;
      ok := OneRaw(cols, out, part, g, opens, z, val);
      gave := {};
    } else {
      ok, gave := OneArrow(cols, out, part, g, bs, val);
    }
  }

  // ---- what `decode` counts on ----

  /** `lost` says of task `i` which of the part's columns its batches give up. */
  ghost predicate LosesExactly(lost: Lost, i: nat, part: Part, bs: seq<Result<Batch>>) {
    && |part.bat| == |part.outs|
    && (forall p | p in part.raw :: !lost(i, p))
    && forall h | 0 <= h < |part.outs| :: lost(i, part.outs[h]) <==> Gave(bs, part.bat[h])
  }

  /** What the files hold in one row group. */
  ghost function ValuesOf(src: Source<int>, g: Rg): Values {
    (c: nat, r: nat) => src(g.f, g.g, c, r)
  }

  lemma CellIsMine(rgs: seq<Rg>, parts: seq<Part>, i: nat, p: nat, r: nat)
    requires i < |rgs| * |parts| && parts != [] && TaskRg(parts, i) < |rgs|
    ensures (p, r) in TaskCells(rgs, parts, i) <==> Mine(parts[TaskPart(parts, i)], rgs[TaskRg(parts, i)], p, r)
  {
    CellsOfExact(rgs[TaskRg(parts, i)], parts[TaskPart(parts, i)], p, r);
  }

  lemma ShareIsRight(
    cols: seq<array<int>>, out: seq<nat>, rgs: seq<Rg>, parts: seq<Part>, lost: Lost, end: nat -> D.End,
    src: Source<int>, gave: set<nat>, bs: seq<Result<Batch>>, i: nat, p: nat, r: nat)
    requires |cols| == |out| && i < |rgs| * |parts| && parts != [] && TaskRg(parts, i) < |rgs|
    requires var g, part := rgs[TaskRg(parts, i)], parts[TaskPart(parts, i)];
             && Right(cols, out, part, g, gave, ValuesOf(src, g))
             && LosesExactly(lost, i, part, bs) && GaveExactly(part, bs, gave)
    requires p < |cols| && r < cols[p].Length && (p, r) in JobOf(src, out, rgs, parts, lost, end).owes(i)
    ensures cols[p][r] == JobOf(src, out, rgs, parts, lost, end).value(i)((p, r))
  {
    CellIsMine(rgs, parts, i, p, r);
    var part := parts[TaskPart(parts, i)];
    if p in part.outs {
      var h :| 0 <= h < |part.outs| && part.outs[h] == p;
      assert lost(i, part.outs[h]) <==> p in gave;
    }
  }

  /**
   Task `i` of the job `read` hands to `decode`: when it succeeds it has left its own
   value in every cell the job says it owes, and it never writes outside its cells.
   */
  method RunTask(
    cols: seq<array<int>>, out: seq<nat>, raw: seq<bool>, ways: nat, rgs: seq<Rg>, parts: seq<Part>, i: nat,
    opens: bool, z: ZeroCopy, bs: seq<Result<Batch>>,
    ghost src: Source<int>, ghost lost: Lost, ghost end: nat -> D.End) returns (ok: bool)
    requires |cols| == |out| == |raw| && Distinct(out) && parts == PartsOf(out, raw, ways) && i < |rgs| * |parts|
    requires parts != [] && TaskRg(parts, i) < |rgs| && Separate(cols) && z.rd.at == 0 && !z.rd.Broken()
    requires var g, part := rgs[TaskRg(parts, i)], parts[TaskPart(parts, i)];
             && Room(cols, g.off, g.rows) && LosesExactly(lost, i, part, bs)
             && (forall p | p in part.raw && p < |out| :: Stores(z, out[p], ValuesOf(src, g)))
             && Delivers(bs, part.cols, g.rows, ValuesOf(src, g))
    modifies cols, z.rd`at, z.rd`short, z.rd`failed
    ensures var g, part := rgs[TaskRg(parts, i)], parts[TaskPart(parts, i)];
            ok <==> if part.raw != [] then opens && !z.rd.Broken() && z.rd.at == g.rows
                    else Rows(bs) == g.rows && AllConvert(bs, part.bat)
    ensures ok ==> forall p: nat, r: nat | p < |cols| && r < cols[p].Length
                     && (p, r) in JobOf(src, out, rgs, parts, lost, end).owes(i) ::
              cols[p][r] == JobOf(src, out, rgs, parts, lost, end).value(i)((p, r))
    ensures forall p: nat, r: nat | p < |cols| && r < cols[p].Length
              && (p, r) !in JobOf(src, out, rgs, parts, lost, end).cells(i) ::
              cols[p][r] == old(cols[p][r])
  {
    var g, part := rgs[TaskRg(parts, i)], parts[TaskPart(parts, i)];
    var gave;
    ok, gave := One(cols, out, raw, ways, part, g, opens, z, bs, ValuesOf(src, g));
    forall p: nat, r: nat | p < |cols| && r < cols[p].Length
      ensures (p, r) in TaskCells(rgs, parts, i) <==> Mine(part, g, p, r)
    {
      CellIsMine(rgs, parts, i, p, r);
    }
    if ok {
      forall p: nat, r: nat | p < |cols| && r < cols[p].Length && (p, r) in JobOf(src, out, rgs, parts, lost, end).owes(i)
        ensures cols[p][r] == JobOf(src, out, rgs, parts, lost, end).value(i)((p, r))
      {
        ShareIsRight(cols, out, rgs, parts, lost, end, src, gave, bs, i, p, r);
      }
    }
  }
}
