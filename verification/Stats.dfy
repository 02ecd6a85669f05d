/**
 What a footer's statistics become, and why a caller may prune with them: an extremum
 is the very value the reader would decode its bound into, or null.
 */
module Stats {
  import opened Common
  import opened Kernels
  import opened Machine

  // ---- root columns and leaves ----

  /** Is `l` the one leaf of root `r`? */
  ghost predicate OnlyLeaf(roots: seq<nat>, r: nat, l: nat) {
    && l < |roots| && roots[l] == r
    && forall m | 0 <= m < |roots| :: roots[m] == r ==> m == l
  }

  /** What the map says of root `r` after the leaves `roots`, of which `n` are its own. */
  ghost predicate Mapped(roots: seq<nat>, r: nat, n: nat, v: Option<nat>) {
    && (v.Some? <==> n == 1)
    && (n == 0 ==> r !in roots)
    && (n == 1 ==> OnlyLeaf(roots, r, v.value))
    && (n > 1 ==> exists l, m | 0 <= l < m < |roots| :: roots[l] == roots[m] == r)
  }

  lemma MappedMore(roots: seq<nat>, root: nat, r: nat, n: nat, v: Option<nat>)
    requires Mapped(roots, r, n, v)
    ensures if root != r then Mapped(roots + [root], r, n, v)
            else Mapped(roots + [root], r, n + 1, if n == 0 then Some(|roots|) else None)
  {
    var more := roots + [root];
    if n > 1 {
      var l, m :| 0 <= l < m < |roots| && roots[l] == roots[m] == r;
      assert more[l] == more[m] == r;
    } else if n == 1 && root == r {
      assert more[v.value] == more[|roots|] == r;
    }
  }

  lemma MappedExact(roots: seq<nat>, r: nat, n: nat, v: Option<nat>)
    requires Mapped(roots, r, n, v)
    ensures forall l: nat :: v == Some(l) <==> OnlyLeaf(roots, r, l)
  {
    if n > 1 {
      var l, m :| 0 <= l < m < |roots| && roots[l] == roots[m] == r;
      assert forall x | OnlyLeaf(roots, r, x) :: x == l && x == m;
    }
  }

  /** `leaf_map` over `fields` roots: a root maps to a leaf exactly when it is the root's only one. */
  method LeafMap(roots: seq<nat>, fields: nat) returns (v: seq<Option<nat>>)
    ensures |v| == fields
    ensures forall r: nat, l: nat | r < fields :: v[r] == Some(l) <==> OnlyLeaf(roots, r, l)
  {
    v := seq(fields, r => None);
    var n: seq<nat> := seq(fields, r => 0);
    for l := 0 to |roots|
      invariant |v| == |n| == fields
      invariant forall r | 0 <= r < fields :: Mapped(roots[..l], r, n[r], v[r])
    {
      var r := roots[l];
      assert roots[..l + 1] == roots[..l] + [r];
      forall q | 0 <= q < fields {
        MappedMore(roots[..l], r, q, n[q], v[q]);
      }
      if r < fields {
        n := n[r := n[r] + 1];
        v := v[r := if n[r] == 1 then Some(l) else None];
      }
    }
    assert roots[..|roots|] == roots;
    forall r | 0 <= r < fields {
      MappedExact(roots, r, n[r], v[r]);
    }
  }

  ghost predicate HasOneLeaf(roots: seq<nat>, r: nat) {
    exists l: nat :: OnlyLeaf(roots, r, l)
  }

  /** While the first `n` roots are flat a leaf's number is its root's, so indexing chunks by column is right. */
  lemma {:induction false} FlatIsIdentity(roots: seq<nat>, n: nat)
    requires forall i, j | 0 <= i < j < |roots| :: roots[i] <= roots[j]
    requires forall q: nat | q < n :: HasOneLeaf(roots, q)
    ensures forall q: nat | q < n :: OnlyLeaf(roots, q, q)
  {
    if n > 0 {
      FlatIsIdentity(roots, n - 1);
      assert HasOneLeaf(roots, n - 1);
      var m: nat :| OnlyLeaf(roots, n - 1, m);
      assert m >= n - 1 by {
        assert m < n - 1 ==> OnlyLeaf(roots, m, m);
      }
      assert n > 1 ==> OnlyLeaf(roots, n - 2, n - 2) && roots[n - 2] <= roots[n - 1];
      assert roots[n - 1] <= roots[m];
    }
  }

  // ---- extrema ----

  datatype Unit = Second | Millisecond | Microsecond | Nanosecond

  function NsPer(u: Unit): int {
    match u
    case Second => 1_000_000_000
    case Millisecond => 1_000_000
    case Microsecond => 1_000
    case Nanosecond => 1
  }

  /** A file's own type for a column, and the L type it lands in. */
  datatype ArrowType = Int16 | Int32 | Int64 | Date32 | Time32 | Timestamp(u: Unit) | Duration(u: Unit)

  datatype LType = KH | KI | KJ | KD | KT | KP | KN

  function LTypeOf(dt: ArrowType): LType {
    match dt
    case Int16 => KH
    case Int32 => KI
    case Int64 => KJ
    case Date32 => KD
    case Time32 => KT
    case Timestamp(_) => KP
    case Duration(_) => KN
  }

  function KindOf(lt: LType): Kind {
    match lt
    case KH => I16
    case KI | KD | KT => I32
    case KJ | KP | KN => I64
  }

  /** What the reader makes of a stored value, unit and epoch applied. */
  function ReadOf(dt: ArrowType, v: int): int {
    match dt
    case Date32 => ShiftVal(I32, DAY2000, 1, v)
    case Timestamp(u) => ShiftVal(I64, NS2000, NsPer(u), v)
    case Duration(u) => ShiftVal(I64, 0, NsPer(u), v)
    case _ => v
  }

  /** Integer width a value of the type is stored with. */
  function StoredAs(dt: ArrowType): Kind {
    match dt
    case Int16 | Int32 | Date32 | Time32 => I32
    case Int64 | Timestamp(_) | Duration(_) => I64
  }

  datatype Bound = Bound(v: int, exact: bool)

  /** A chunk's statistics, by physical type. */
  datatype Statistics =
    | Words(kind: Kind, min: Option<Bound>, max: Option<Bound>, nulls: Option<nat>)
    | Others(nulls: Option<nat>)

  /** The bound, when it is there and exact. */
  function Pick(st: Statistics, hi: bool): Option<int>
    requires st.Words?
  {
    var b := if hi then st.max else st.min;
    if b.Some? && b.value.exact then Some(b.value.v) else None
  }

  function ToNs(dt: ArrowType, v: int): Option<int> {
    match dt
    case Timestamp(u) => Checked(I64, v * NsPer(u))
    case Duration(u) => Checked(I64, v * NsPer(u))
    case _ => None
  }

  function CheckedSub(k: Kind, x: Option<int>, y: int): Option<int> {
    if x.Some? then Checked(k, x.value - y) else None
  }

  /** Write one extremum into element `g`, or leave the null that is there. */
  method PutStat(lt: LType, dt: ArrowType, col: array<int>, g: nat, st: Statistics, hi: bool)
    requires g < col.Length && LTypeOf(dt) == lt && col[g] == Null(KindOf(lt))
    requires st.Words? ==> st.kind != I16 && forall b | b == st.min || b == st.max :: b.Some? ==> Fits(st.kind, b.value.v)
    modifies col
    ensures col[g] == StatOf(dt, Some(st), hi)
    ensures forall j | 0 <= j < col.Length && j != g :: col[j] == old(col[j])
  {
    if st.Words? {
      var v := Pick(st, hi);
      match (lt, st.kind) {
        case (KH, I32) =>
          if v.Some? {
            col[g] := Wrap(I16, v.value);
          }
        case (KI, I32) | (KT, I32) =>
          if v.Some? {
            col[g] := v.value;
          }
        case (KJ, I64) =>
          if v.Some? {
            col[g] := v.value;
          }
        case (KD, I32) =>
          var d := CheckedSub(I32, v, DAY2000);
          if d.Some? {
            col[g] := d.value;
          }
        case (KP, I64) =>
          var t := CheckedSub(I64, if v.Some? then ToNs(dt, v.value) else None, NS2000);
          if t.Some? {
            col[g] := t.value;
          }
        case (KN, I64) =>
          var t := if v.Some? then ToNs(dt, v.value) else None;
          if t.Some? {
            col[g] := t.value;
          }
        case _ =>
      }
      if v.Some? && st.kind == StoredAs(dt) {
        ReadIsMeaning(dt, v.value);
      }
    }
  }

  /** The extremum of a row group: what the reader makes of the bound, or null. */
  function StatOf(dt: ArrowType, st: Option<Statistics>, hi: bool): int {
    var lt := LTypeOf(dt);
    if st.Some? && st.value.Words? && st.value.kind == StoredAs(dt) && Pick(st.value, hi).Some? then
      Wrap(KindOf(lt), ReadOf(dt, Pick(st.value, hi).value))
    else Null(KindOf(lt))
  }

  /** Scaled and shifted, or null when either leaves the machine. */
  lemma ReadIsMeaning(dt: ArrowType, v: int)
    requires Fits(StoredAs(dt), v)
    ensures match dt
            case Date32 => ReadOf(dt, v) == Meaning(I32, DAY2000, 1, v)
            case Timestamp(u) => ReadOf(dt, v) == Meaning(I64, NS2000, NsPer(u), v)
            case Duration(u) => ReadOf(dt, v) == Meaning(I64, 0, NsPer(u), v)
            case _ => ReadOf(dt, v) == v
  {
    match dt
    case Date32 => ShiftIsMeaning(I32, DAY2000, 1, v);
    case Timestamp(u) => ShiftIsMeaning(I64, NS2000, NsPer(u), v);
    case Duration(u) => ShiftIsMeaning(I64, 0, NsPer(u), v);
    case _ =>
  }

  /** What is reported: an exact bound of the width the type is stored with, shifted and scaled; null for any other. */
  lemma BoundReported(dt: ArrowType, st: Statistics, hi: bool, b: Option<Bound>)
    requires st.Words? && b == (if hi then st.max else st.min) && (b.Some? ==> Fits(st.kind, b.value.v))
    ensures var r, kind := StatOf(dt, Some(st), hi), if dt.Int64? || dt.Timestamp? || dt.Duration? then I64 else I32;
            if b.None? || !b.value.exact || st.kind != kind then r == Null(KindOf(LTypeOf(dt)))
            else
              var v := b.value.v;
              match dt
              case Int16 => r == Wrap(I16, v)
              case Int32 => r == v
              case Int64 => r == v
              case Time32 => r == v
              case _ => r == ReadOf(dt, v)
  {
    if b.Some? && st.kind == StoredAs(dt) {
      ReadIsMeaning(dt, b.value.v);
    }
  }

  /** The null of each type. */
  lemma NullOfType(dt: ArrowType)
    ensures Null(KindOf(LTypeOf(dt))) ==
            match dt
            case Int16 => -0x8000
            case Int32 => -0x8000_0000
            case Date32 => -0x8000_0000
            case Time32 => -0x8000_0000
            case _ => -0x8000_0000_0000_0000
  {}

  /** A day is counted from the first of 2000, or null below the range. */
  lemma DaysFrom2000(v: int)
    requires Fits(I32, v)
    ensures ReadOf(Date32, v) == if v < -0x8000_0000 + 10_957 then -0x8000_0000 else v - 10_957
  {
    ReadIsMeaning(Date32, v);
  }

  function Finer(u: Unit): Unit {
    match u
    case Second => Millisecond
    case Millisecond => Microsecond
    case _ => Nanosecond
  }

  lemma SameNanoseconds(u: Unit, v: int)
    requires u != Nanosecond
    ensures v * NsPer(u) == 1_000 * v * NsPer(Finer(u))
  {}

  /** `v` of a unit and `1000 * v` of the next finer one are one instant ... */
  lemma OneInstant(u: Unit, v: int)
    requires u != Nanosecond && Fits(I64, 1_000 * v)
    ensures ReadOf(Timestamp(u), v) == ReadOf(Timestamp(Finer(u)), 1_000 * v)
  {
    ReadIsMeaning(Timestamp(u), v);
    ReadIsMeaning(Timestamp(Finer(u)), 1_000 * v);
    SameNanoseconds(u, v);
  }

  /** ... and one span of time. */
  lemma OneSpan(u: Unit, v: int)
    requires u != Nanosecond && Fits(I64, 1_000 * v)
    ensures ReadOf(Duration(u), v) == ReadOf(Duration(Finer(u)), 1_000 * v)
  {
    ReadIsMeaning(Duration(u), v);
    ReadIsMeaning(Duration(Finer(u)), 1_000 * v);
    SameNanoseconds(u, v);
  }

  /** Nanoseconds are counted as they are, from the first instant of 2000, or null below the range. */
  lemma NanosecondsFrom2000(v: int)
    requires Fits(I64, v)
    ensures ReadOf(Duration(Nanosecond), v) == v
    ensures ReadOf(Timestamp(Nanosecond), v) ==
            if v < -0x8000_0000_0000_0000 + 946_684_800_000_000_000 then -0x8000_0000_0000_0000
            else v - 946_684_800_000_000_000
  {
    ReadIsMeaning(Timestamp(Nanosecond), v);
  }

  /** The reader keeps order wherever it does not answer null. */
  lemma ReadKeepsOrder(dt: ArrowType, u: int, v: int)
    requires Fits(StoredAs(dt), u) && Fits(StoredAs(dt), v) && u <= v
    requires ReadOf(dt, u) != Null(KindOf(LTypeOf(dt))) && ReadOf(dt, v) != Null(KindOf(LTypeOf(dt)))
    ensures ReadOf(dt, u) <= ReadOf(dt, v)
  {
    ReadIsMeaning(dt, u);
    ReadIsMeaning(dt, v);
  }

  /** Bounds a caller may rely on: what is exact brackets every value. */
  ghost predicate Brackets(st: Statistics, dt: ArrowType, values: seq<int>)
    requires st.Words?
  {
    && (forall i | 0 <= i < |values| :: Fits(StoredAs(dt), values[i]))
    && (st.min.Some? && st.min.value.exact ==>
          Fits(StoredAs(dt), st.min.value.v) && forall i | 0 <= i < |values| :: st.min.value.v <= values[i])
    && (st.max.Some? && st.max.value.exact ==>
          Fits(StoredAs(dt), st.max.value.v) && forall i | 0 <= i < |values| :: values[i] <= st.max.value.v)
  }

  /** A non-null extremum brackets a non-null value. */
  predicate Prunes(dt: ArrowType, stat: int, hi: bool, v: int) {
    var nul, d := Null(KindOf(LTypeOf(dt))), ReadOf(dt, v);
    stat == nul || d == nul || if hi then d <= stat else stat <= d
  }

  /**
   A 16-bit column's bound is stored in 32 bits and cut to 16.  The cut is harmless
   exactly when the bound is on the value's side of the range, or becomes the
   null or the last value before it.
   */
  predicate CutIsHarmless(hi: bool, bound: int) {
    if hi then bound <= 0x7FFF || Wrap(I16, bound) == 0x7FFF || Wrap(I16, bound) == -0x8000
    else bound >= -0x8000 || Wrap(I16, bound) == -0x7FFF || Wrap(I16, bound) == -0x8000
  }

  lemma CutExact(hi: bool, bound: int)
    ensures (forall v | Fits(I16, v) && (if hi then v <= bound else bound <= v) :: Prunes(Int16, Wrap(I16, bound), hi, v))
            <==> CutIsHarmless(hi, bound)
  {
    if !CutIsHarmless(hi, bound) {
      assert !Prunes(Int16, Wrap(I16, bound), hi, if hi then 0x7FFF else -0x7FFF);
    }
  }

  /** A bound that brackets but is no value of the column: the row with 5 would be pruned from `>= 5`. */
  lemma LooseBoundPrunesTooMuch()
    ensures var st := Words(I32, Some(Bound(0, true)), Some(Bound(65_540, true)), None);
            && Brackets(st, Int16, [5])
            && StatOf(Int16, Some(st), true) == 4
            && !Prunes(Int16, StatOf(Int16, Some(st), true), true, 5)
  {}

  /** A 16-bit column holds 16-bit values, and its exact bounds survive the cut. */
  predicate FitsColumn(dt: ArrowType, st: Statistics, values: seq<int>)
    requires st.Words?
  {
    dt.Int16? ==>
      && (forall i | 0 <= i < |values| :: Fits(I16, values[i]))
      && forall hi: bool :: Pick(st, hi).Some? ==> CutIsHarmless(hi, Pick(st, hi).value)
  }

  lemma PruningSound(dt: ArrowType, st: Statistics, values: seq<int>, hi: bool, i: nat)
    requires st.Words? && Brackets(st, dt, values) && FitsColumn(dt, st, values) && i < |values|
    ensures Prunes(dt, StatOf(dt, Some(st), hi), hi, values[i])
  {
    var b := Pick(st, hi);
    if b.Some? && st.kind == StoredAs(dt) {
      if dt.Int16? {
        CutExact(hi, b.value);
      } else {
        ReadIsMeaning(dt, b.value);
        var nul := Null(KindOf(LTypeOf(dt)));
        if ReadOf(dt, b.value) != nul && ReadOf(dt, values[i]) != nul {
          if hi {
            ReadKeepsOrder(dt, values[i], b.value);
          } else {
            ReadKeepsOrder(dt, b.value, values[i]);
          }
        }
      }
    }
  }

  // ---- the vectors ----

  /** A file: its own type for the column, and the statistics of each of its row groups. */
  datatype FileStats = FileStats(dt: ArrowType, groups: seq<Option<Statistics>>)

  /** Row groups of all files in order, each beside the type of the file that wrote it. */
  function Global(files: seq<FileStats>): seq<(ArrowType, Option<Statistics>)> {
    if files == [] then []
    else
      var f := files[|files| - 1];
      Global(files[..|files| - 1]) + Beside(f, |f.groups|)
  }

  function Beside(f: FileStats, n: nat): (r: seq<(ArrowType, Option<Statistics>)>)
    requires n <= |f.groups|
    ensures |r| == n
  {
    seq(n, i requires 0 <= i < n => (f.dt, f.groups[i]))
  }

  /** Row groups of the first `f` files. */
  function Before(files: seq<FileStats>, f: nat): int
    requires f <= |files|
  {
    Sum(seq(f, i requires 0 <= i < f => |files[i].groups|))
  }

  lemma BeforeMore(files: seq<FileStats>, f: nat)
    requires f < |files|
    ensures Before(files, f + 1) == Before(files, f) + |files[f].groups|
  {
    var ns := seq(f + 1, i requires 0 <= i < f + 1 => |files[i].groups|);
    assert ns[..f] == seq(f, i requires 0 <= i < f => |files[i].groups|);
  }

  /** Row group `r` of file `f` comes after those of the earlier files, with that file's type. */
  lemma {:induction false} GlobalAt(files: seq<FileStats>, n: nat, f: nat, r: nat)
    requires f < n <= |files| && r < |files[f].groups|
    ensures |Global(files[..n])| == Before(files, n)
    ensures 0 <= Before(files, f) && Before(files, f) + r < Before(files, n)
    ensures Global(files[..n])[Before(files, f) + r] == (files[f].dt, files[f].groups[r])
    decreases n
  {
    GlobalLength(files, n);
    GlobalLength(files, f);
    GlobalLength(files, n - 1);
    BeforeMore(files, n - 1);
    assert files[..n][..n - 1] == files[..n - 1];
    if f < n - 1 {
      GlobalAt(files, n - 1, f, r);
    }
  }

  lemma {:induction false} GlobalLength(files: seq<FileStats>, n: nat)
    requires n <= |files|
    ensures |Global(files[..n])| == Before(files, n)
  {
    if n > 0 {
      assert files[..n][..n - 1] == files[..n - 1];
      GlobalLength(files, n - 1);
      BeforeMore(files, n - 1);
    }
  }

  predicate SaneStats(st: Option<Statistics>) {
    st.Some? && st.value.Words? ==>
      && st.value.kind != I16
      && (st.value.min.Some? ==> Fits(st.value.kind, st.value.min.value.v))
      && (st.value.max.Some? ==> Fits(st.value.kind, st.value.max.value.v))
  }

  function CountIn(st: Option<Statistics>): Option<nat> {
    if st.Some? then st.value.nulls else None
  }

  /** The long a footer's null count becomes: itself below 2^63, and the long null where there is none. */
  ghost predicate NullsRight(count: Option<nat>, n: int) {
    && (count.None? ==> n == -0x8000_0000_0000_0000)
    && (count.Some? ==> n == Wrap(I64, count.value))
    && (count.Some? && count.value < 0x8000_0000_0000_0000 ==> n == count.value)
  }

  /** The three vectors hold the row groups `all`. */
  ghost predicate Holds(mn: seq<int>, mx: seq<int>, nc: seq<int>, all: seq<(ArrowType, Option<Statistics>)>)
  {
    && |all| <= |mn| && |mn| == |mx| == |nc|
    && forall g | 0 <= g < |all| ::
         && mn[g] == StatOf(all[g].0, all[g].1, false)
         && mx[g] == StatOf(all[g].0, all[g].1, true)
         && NullsRight(CountIn(all[g].1), nc[g])
  }

  /** One row group's three entries. */
  method PutGroup(lt: LType, dt: ArrowType, st: Option<Statistics>, mn: array<int>, mx: array<int>, nc: array<int>, g: nat,
                  ghost all: seq<(ArrowType, Option<Statistics>)>)
    requires LTypeOf(dt) == lt && SaneStats(st)
    requires mn != mx && mx != nc && mn != nc
    requires |all| == g < mn.Length && mn.Length == mx.Length == nc.Length
    requires Holds(mn[..], mx[..], nc[..], all)
    modifies mn, mx, nc
    ensures Holds(mn[..], mx[..], nc[..], all + [(dt, st)])
  {
    mn[g] := Null(KindOf(lt));
    mx[g] := Null(KindOf(lt));
    nc[g] := if CountIn(st).Some? then Wrap(I64, CountIn(st).value) else Null(I64);
    if st.Some? {
      PutStat(lt, dt, mn, g, st.value, false);
      PutStat(lt, dt, mx, g, st.value, true);
    }
  }

  /** A file's row groups, from element `g` on. */
  method PutFile(lt: LType, f: FileStats, mn: array<int>, mx: array<int>, nc: array<int>, g: nat,
                 ghost before: seq<(ArrowType, Option<Statistics>)>)
    requires LTypeOf(f.dt) == lt && forall r | 0 <= r < |f.groups| :: SaneStats(f.groups[r])
    requires mn != mx && mx != nc && mn != nc
    requires |before| == g && g + |f.groups| <= mn.Length && mn.Length == mx.Length == nc.Length
    requires Holds(mn[..], mx[..], nc[..], before)
    modifies mn, mx, nc
    ensures Holds(mn[..], mx[..], nc[..], before + Beside(f, |f.groups|))
  {
    assert before + Beside(f, 0) == before;
    for r := 0 to |f.groups|
      invariant Holds(mn[..], mx[..], nc[..], before + Beside(f, r))
    {
      PutGroup(lt, f.dt, f.groups[r], mn, mx, nc, g + r, before + Beside(f, r));
      assert before + Beside(f, r) + [(f.dt, f.groups[r])] == before + Beside(f, r + 1);
    }
  }

  /** One column of `stats_of`: every row group's extrema, each scaled by the file that wrote it. */
  method StatsOf(lt: LType, files: seq<FileStats>, ng: nat) returns (mn: array<int>, mx: array<int>, nc: array<int>)
    requires ng == |Global(files)|
    requires forall f | 0 <= f < |files| ::
               LTypeOf(files[f].dt) == lt && forall r | 0 <= r < |files[f].groups| :: SaneStats(files[f].groups[r])
    ensures mn.Length == mx.Length == nc.Length == ng
    ensures Holds(mn[..], mx[..], nc[..], Global(files))
  {
    mn, mx, nc := new int[ng], new int[ng], new int[ng];
    var g := 0;
    assert files[..0] == [];
    for f := 0 to |files|
      invariant g == |Global(files[..f])| && Holds(mn[..], mx[..], nc[..], Global(files[..f]))
    {
      assert files[..f + 1][..f] == files[..f];
      GlobalGrows(files, f + 1);
      PutFile(lt, files[f], mn, mx, nc, g, Global(files[..f]));
      g := g + |files[f].groups|;
    }
    assert files[..|files|] == files;
  }

  lemma {:induction false} GlobalGrows(files: seq<FileStats>, n: nat)
    requires n <= |files|
    ensures |Global(files[..n])| <= |Global(files)|
    decreases |files| - n
  {
    if n < |files| {
      assert files[..n + 1][..n] == files[..n];
      GlobalGrows(files, n + 1);
    } else {
      assert files[..n] == files;
    }
  }

  /** A caller who skips row groups by these vectors skips only what holds nothing it wants. */
  lemma SkippingIsSafe(
    files: seq<FileStats>, mn: seq<int>, mx: seq<int>, nc: seq<int>, values: seq<seq<int>>, g: nat, i: nat)
    requires Holds(mn, mx, nc, Global(files)) && g < |Global(files)| == |values| && i < |values[g]|
    requires var (dt, st) := Global(files)[g];
             st.Some? && st.value.Words? ==> Brackets(st.value, dt, values[g]) && FitsColumn(dt, st.value, values[g])
    ensures var dt := Global(files)[g].0;
            Prunes(dt, mn[g], false, values[g][i]) && Prunes(dt, mx[g], true, values[g][i])
  {
    var (dt, st) := Global(files)[g];
    if st.Some? && st.value.Words? {
      PruningSound(dt, st.value, values[g], false, i);
      PruningSound(dt, st.value, values[g], true, i);
    }
  }

  // ---- null counts ----

  /** Does the row read as null? */
  predicate ReadsNull(dt: ArrowType, row: Option<int>) {
    row.None? || ReadOf(dt, row.value) == Null(KindOf(LTypeOf(dt)))
  }

  lemma {:induction false} SubsetCount(a: set<nat>, b: set<nat>)
    requires a <= b
    ensures |a| <= |b| && (|a| == |b| ==> a == b)
  {
    if a != {} {
      var x :| x in a;
      SubsetCount(a - {x}, b - {x});
    }
  }

  /**
   Where a footer counts its row group honestly, the vector holds the number of rows
   stored as null; a reader sees at least as many nulls, and no more as long as no
   stored value reads as null.
   */
  lemma NullCountExact(
    files: seq<FileStats>, mn: seq<int>, mx: seq<int>, nc: seq<int>, g: nat, rows: seq<Option<int>>)
    requires Holds(mn, mx, nc, Global(files)) && g < |Global(files)| && |rows| < 0x8000_0000_0000_0000
    requires CountIn(Global(files)[g].1) == Some(|set i | 0 <= i < |rows| && rows[i].None?|)
    ensures var dt := Global(files)[g].0;
            && nc[g] == |set i | 0 <= i < |rows| && rows[i].None?|
            && nc[g] <= |set i | 0 <= i < |rows| && ReadsNull(dt, rows[i])|
            && (nc[g] == |set i | 0 <= i < |rows| && ReadsNull(dt, rows[i])|
                <==> forall i | 0 <= i < |rows| && rows[i].Some? :: !ReadsNull(dt, rows[i]))
  {
    var dt := Global(files)[g].0;
    var stored := set i | 0 <= i < |rows| && rows[i].None?;
    var read := set i | 0 <= i < |rows| && ReadsNull(dt, rows[i]);
    AtMostRows(rows);
    SubsetCount(stored, read);
    if forall i | 0 <= i < |rows| && rows[i].Some? :: !ReadsNull(dt, rows[i]) {
      assert read == stored;
    } else {
      var i :| 0 <= i < |rows| && rows[i].Some? && ReadsNull(dt, rows[i]);
      assert i in read && i !in stored;
    }
  }

  lemma {:induction false} AtMostRows(rows: seq<Option<int>>)
    ensures |set i | 0 <= i < |rows| && rows[i].None?| <= |rows|
  {
    if rows != [] {
      var n := |rows| - 1;
      AtMostRows(rows[..n]);
      var before := set i | 0 <= i < n && rows[..n][i].None?;
      SubsetCount((set i | 0 <= i < |rows| && rows[i].None?), before + {n});
    }
  }

  /** A stored value reads as null exactly when its L form leaves the machine or is the null itself. */
  lemma ReadsNullExactly(dt: ArrowType, v: int)
    requires Fits(StoredAs(dt), v)
    ensures ReadsNull(dt, Some(v)) <==>
            match dt
            case Int16 => v == Null(I16)
            case Int32 => v == Null(I32)
            case Int64 => v == Null(I64)
            case Time32 => v == Null(I32)
            case Date32 => v - DAY2000 <= Null(I32)
            case Timestamp(u) => !Fits(I64, v * NsPer(u)) || v * NsPer(u) - NS2000 <= Null(I64)
            case Duration(u) => !Fits(I64, v * NsPer(u)) || v * NsPer(u) == Null(I64)
  {
    ReadIsMeaning(dt, v);
  }

  /** Ten thousand million seconds are no nanoseconds of 64 bits: no null is stored, and one is read. */
  lemma OverflowReadsNull()
    ensures var rows := [Some(10_000_000_000)];
            rows[0].Some? && ReadsNull(Timestamp(Second), rows[0])
  {
    ReadsNullExactly(Timestamp(Second), 10_000_000_000);
  }
}
