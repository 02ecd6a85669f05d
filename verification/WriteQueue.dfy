/**
 The (row group x column) work queue of the Parquet writer: the state behind
 its mutex, the lock sections that change it, and the arithmetic that cuts a
 table into tasks.

 Every lock section is written twice: as a function on the value `Q`, which the
 protocol proofs use, and as a method of `Shared` that updates fields in place
 and is proved equal to that function.
 */
module WriteQueue {
  import opened Common

  /** The one-shot encoder of column `c` of row group `g`. */
  datatype Writer = Writer(g: nat, c: nat)

  datatype Q = Q(
    next: nat,
    head: nat,
    wr: map<nat, seq<Option<Writer>>>,
    done: map<nat, Bytes>,
    err: Option<string>)

  const EMPTY_QUEUE := Q(0, 0, map[], map[], None)

  /** What one look at the queue tells a worker. */
  datatype Claim =
    | Quit
    | Wait
    | NoWriters(msg: string)
    | Claimed(i: nat, w: Writer)
    | Lost

  /** What one look at the queue tells the master about the chunk it needs. */
  datatype Take =
    | Got(chunk: Bytes)
    | Stop(msg: string)
    | Sleep

  function FreshWriters(g: nat, nc: nat): seq<Option<Writer>> {
    seq(nc, c requires 0 <= c < nc => Some(Writer(g, c)))
  }

  /** Claim section of a worker.  `made` is an error of the column-writer factory. */
  function LookQ(q: Q, nc: nat, ntasks: nat, window: nat, made: Option<string>): (Q, Claim)
    requires nc > 0
  {
    if q.err.Some? || q.next >= ntasks then
      (q, Quit)
    else if q.next >= q.head + window then
      (q, Wait)
    else
      var g, c := q.next / nc, q.next % nc;
      if c == 0 && made.Some? then
        (q, NoWriters(made.value))
      else
        var (wr, w) := TakeWriter(if c == 0 then q.wr[g := FreshWriters(g, nc)] else q.wr, nc, g, c);
        (q.(next := q.next + 1, wr := wr), if w.Some? then Claimed(q.next, w.value) else Lost)
  }

  /** Take the writer of column `c` out of row group `g`, and drop the group with its last column. */
  function TakeWriter(wr: map<nat, seq<Option<Writer>>>, nc: nat, g: nat, c: nat)
    : (map<nat, seq<Option<Writer>>>, Option<Writer>)
  {
    var w := if g in wr && c < |wr[g]| then wr[g][c] else None;
    var taken := if w.Some? then wr[g := wr[g][c := None]] else wr;
    (if c + 1 == nc then taken - {g} else taken, w)
  }

  /** Deposit section of a worker. */
  function DepositQ(q: Q, i: nat, chunk: Bytes): Q {
    q.(done := q.done[i := chunk])
  }

  /** First half of `fail`: the first error recorded is the one kept. */
  function RecordQ(q: Q, msg: string): Q {
    if q.err.Some? then q else q.(err := Some(msg))
  }

  /** Look of the master at chunk `i`.  A finished chunk wins over a recorded error. */
  function TakeQ(q: Q, i: nat): (Q, Take) {
    if i in q.done then
      (q.(done := q.done - {i}, head := i + 1), Got(q.done[i]))
    else if q.err.Some? then
      (q, Stop(q.err.value))
    else
      (q, Sleep)
  }

  /** The queue as the writer holds it: fields updated under one mutex. */
  class Shared {
    var next: nat
    var head: nat
    var wr: map<nat, seq<Option<Writer>>>
    var done: map<nat, Bytes>
    var err: Option<string>

    ghost function View(): Q
      reads this
    {
      Q(next, head, wr, done, err)
    }

    constructor ()
      ensures View() == EMPTY_QUEUE
    {
      next, head, wr, done, err := 0, 0, map[], map[], None;
    }

    method Look(nc: nat, ntasks: nat, window: nat, made: Option<string>) returns (claim: Claim)
      requires nc > 0
      modifies this
      ensures (View(), claim) == LookQ(old(View()), nc, ntasks, window, made)
    {
      if err.Some? || next >= ntasks {
        return Quit;
      }
      if !(next < head + window) {
        return Wait;
      }
      var i := next;
      var g, c := i / nc, i % nc;
      if c == 0 {
        if made.Some? {
          return NoWriters(made.value);
        }
        wr := wr[g := FreshWriters(g, nc)];
      }
      next := i + 1;
      var w: Option<Writer> := None;
      if g in wr && c < |wr[g]| {
        w := wr[g][c];
        if w.Some? {
          wr := wr[g := wr[g][c := None]];
        }
      }
      if c + 1 == nc {
        wr := wr - {g};
      }
      claim := if w.Some? then Claimed(i, w.value) else Lost;
    }

    method Deposit(i: nat, chunk: Bytes)
      modifies this`done
      ensures View() == DepositQ(old(View()), i, chunk)
    {
      done := done[i := chunk];
    }

    method Record(msg: string)
      modifies this`err
      ensures View() == RecordQ(old(View()), msg)
    {
      if err.None? {
        err := Some(msg);
      }
    }

    method TakeChunk(i: nat) returns (t: Take)
      modifies this
      ensures (View(), t) == TakeQ(old(View()), i)
    {
      if i in done {
        var chunk := done[i];
        done := done - {i};
        head := i + 1;
        return Got(chunk);
      }
      if err.Some? {
        return Stop(err.value);
      }
      return Sleep;
    }
  }

  // Cutting a table into tasks.

  /** Task number of column `c` of row group `g`. */
  function Task(nc: nat, g: nat, c: nat): nat {
    g * nc + c
  }

  lemma TaskSplit(nc: nat, g: nat, c: nat)
    requires c < nc
    ensures Task(nc, g, c) / nc == g && Task(nc, g, c) % nc == c
  {
    DivModUnique(Task(nc, g, c), nc, g, c);
  }

  lemma TaskJoin(nc: nat, i: nat)
    requires nc > 0
    ensures Task(nc, i / nc, i % nc) == i && i % nc < nc
  {}

  lemma TaskBound(nc: nat, nrg: nat, g: nat, c: nat)
    requires c < nc && g < nrg
    ensures Task(nc, g, c) + 1 == Task(nc, g, c + 1) <= Task(nc, g + 1, 0) <= nrg * nc
  {
    assert (g + 1) * nc <= nrg * nc;
    assert (g + 1) * nc == g * nc + nc;
  }

  /** Row groups of a table of `nrows` rows, and the rows of row group `g`. */
  function RowGroups(nrows: nat, rg: nat): nat
    requires rg > 0
  {
    DivCeil(nrows, rg)
  }

  function SliceOff(rg: nat, g: nat): nat {
    g * rg
  }

  function SliceLen(nrows: nat, rg: nat, g: nat): int {
    Min(rg, nrows - SliceOff(rg, g))
  }

  lemma RowGroupsExact(nrows: nat, rg: nat)
    requires rg > 0
    ensures var n := RowGroups(nrows, rg);
            if nrows == 0 then n == 0 else n > 0 && SliceOff(rg, n - 1) < nrows <= SliceOff(rg, n)
  {
    var a := nrows + rg - 1;
    var n := a / rg;
    assert a == n * rg + a % rg;
    if nrows == 0 {
      assert n == 0;
    } else {
      assert n > 0;
      assert (n - 1) * rg == n * rg - rg;
    }
  }

  /** The slices are non-empty, start inside the table, and meet end to start. */
  lemma SlicesMeet(nrows: nat, rg: nat, g: nat)
    requires rg > 0 && g < RowGroups(nrows, rg)
    ensures SliceOff(rg, g) < nrows && SliceLen(nrows, rg, g) > 0
    ensures SliceOff(rg, g) + SliceLen(nrows, rg, g) ==
            if g + 1 == RowGroups(nrows, rg) then nrows else SliceOff(rg, g + 1)
  {
    RowGroupsExact(nrows, rg);
    var n := RowGroups(nrows, rg);
    MulMono(g, n - 1, rg);
    assert SliceOff(rg, g + 1) == SliceOff(rg, g) + rg;
    if g + 1 < n {
      MulMono(g + 1, n - 1, rg);
    }
  }

  /** Each row of the table is in exactly one slice: row groups partition the rows. */
  lemma SlicesPartition(nrows: nat, rg: nat, r: nat, g: nat)
    requires rg > 0 && r < nrows
    ensures r / rg < RowGroups(nrows, rg)
    ensures g < RowGroups(nrows, rg) ==>
              (SliceOff(rg, g) <= r < SliceOff(rg, g) + SliceLen(nrows, rg, g) <==> g == r / rg)
  {
    RowGroupsExact(nrows, rg);
    var n := RowGroups(nrows, rg);
    TaskJoin(rg, r);
    if r / rg >= n {
      MulMono(n, r / rg, rg);
    }
    if g < n {
      SlicesMeet(nrows, rg, g);
      if g * rg <= r < g * rg + rg {
        TaskSplit(rg, g, r - g * rg);
      }
      assert (r / rg) * rg <= r < (r / rg) * rg + rg;
    }
  }

  const INFLIGHT_BYTES: nat := 512 * 1024 * 1024

  /** Bytes one task holds, at most: `width` is the widest column's bytes per row. */
  function TaskBytes(nrows: nat, rg: nat, width: nat): (per: nat)
    ensures per > 0
  {
    Max(Min(rg, nrows) * width, 1)
  }

  /** Bound on claimed, unconsumed tasks. */
  function Window(nthreads: nat, nc: nat, nrows: nat, rg: nat, width: nat): nat {
    Max(Min(nthreads + nc, Max(INFLIGHT_BYTES / TaskBytes(nrows, rg, width), nthreads)), 1)
  }

  /** A task holds at most that, and one of the first row group as much. */
  lemma TaskBytesExact(nrows: nat, rg: nat, width: nat, g: nat)
    requires rg > 0 && g < RowGroups(nrows, rg)
    ensures SliceLen(nrows, rg, g) * width <= TaskBytes(nrows, rg, width)
    ensures TaskBytes(nrows, rg, width) == if width == 0 then 1 else SliceLen(nrows, rg, 0) * width
  {
    RowGroupsExact(nrows, rg);
    SlicesMeet(nrows, rg, g);
    MulMono(SliceLen(nrows, rg, g), Min(rg, nrows), width);
    MulMono(1, Min(rg, nrows), width);
    assert SliceOff(rg, 0) == 0;
  }

  /**
   Every worker can hold one task, at most a row group of slack is held on top, and
   slack is taken exactly as far as all of it together stays within half a gigabyte.
   */
  lemma WindowFeedsWorkers(nthreads: nat, nc: nat, nrows: nat, rg: nat, width: nat)
    requires nthreads > 0
    ensures var w, per := Window(nthreads, nc, nrows, rg, width), TaskBytes(nrows, rg, width);
            && nthreads <= w <= nthreads + nc
            && (w > nthreads ==> w * per <= 0x2000_0000)
            && (w < nthreads + nc ==> (w + 1) * per > 0x2000_0000)
  {
    var per, w := TaskBytes(nrows, rg, width), Window(nthreads, nc, nrows, rg, width);
    var most := INFLIGHT_BYTES / per;
    assert INFLIGHT_BYTES == most * per + INFLIGHT_BYTES % per;
    assert (most + 1) * per == most * per + per;
    if w > nthreads {
      MulMono(w, most, per);
    }
    if w < nthreads + nc {
      MulMono(most + 1, w + 1, per);
    }
  }
}
