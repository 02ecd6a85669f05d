/**
 The Arrow path of the reader and the writer's array build, and why the two read
 paths agree and a written column reads back.
 */
module ArrowPath {
  import opened Bitmaps
  import opened Common
  import opened Kernels
  import opened Machine
  import opened Words

  /** An Arrow primitive array: values, and a bitmap when some are null. */
  datatype Array = Array(vals: seq<int>, nulls: Option<seq<Word>>)

  ghost predicate ValidArray(a: Array) {
    a.nulls.Some? ==> |a.vals| <= 64 * |a.nulls.value| && DivCeil(|a.vals|, 64) <= |a.nulls.value|
  }

  ghost predicate Present(a: Array, i: nat)
    requires ValidArray(a) && i < |a.vals|
  {
    a.nulls.Some? ==> At(a.nulls.value, i)
  }

  // ---- reading ----

  /** `fill_prim`'s epoch shift of one copied value. */
  function FillVal(k: Kind, sh: int, v: int): int {
    if sh == 0 then v
    else if v < Wrap(k, Null(k) + sh) then Null(k) else Wrap(k, v - sh)
  }

  /** Copy, shift in place, then overwrite the null rows the bitmap names. */
  method FillPrim(a: Array, d: array<int>, off: nat, k: Kind, sh: int)
    requires ValidArray(a) && off + |a.vals| <= d.Length
    modifies d
    ensures forall j | off <= j < off + |a.vals| ::
              d[j] == if Present(a, j - off) then FillVal(k, sh, a.vals[j - off]) else Null(k)
    ensures forall j | 0 <= j < d.Length && !(off <= j < off + |a.vals|) :: d[j] == old(d[j])
  {
    var n := |a.vals|;
    CopyShift(a.vals, d, off, k, sh);
    if a.nulls.Some? {
      var seen := EachNull(a.nulls.value, n);
      Blank(seen, Null(k), d, off, n);
      forall i: nat | i < n
        ensures i in seen <==> !Present(a, i)
      {
        assert Read(a.nulls.value, n)[i] == At(a.nulls.value, i);
      }
    }
  }

  method CopyShift(vals: seq<int>, d: array<int>, off: nat, k: Kind, sh: int)
    requires off + |vals| <= d.Length
    modifies d
    ensures forall j | off <= j < off + |vals| :: d[j] == FillVal(k, sh, vals[j - off])
    ensures forall j | 0 <= j < d.Length && !(off <= j < off + |vals|) :: d[j] == old(d[j])
  {
    for i := off to off + |vals|
      invariant forall j | off <= j < i :: d[j] == vals[j - off]
      invariant forall j | 0 <= j < d.Length && !(off <= j < i) :: d[j] == old(d[j])
    {
      d[i] := vals[i - off];
    }
    if sh != 0 {
      var lo := Wrap(k, Null(k) + sh);
      for i := off to off + |vals|
        invariant forall j | off <= j < i :: d[j] == FillVal(k, sh, vals[j - off])
        invariant forall j | i <= j < off + |vals| :: d[j] == vals[j - off]
        invariant forall j | 0 <= j < d.Length && !(off <= j < off + |vals|) :: d[j] == old(d[j])
      {
        var w := Wrap(k, d[i] - sh);
        d[i] := if d[i] < lo then Null(k) else w;
      }
    }
  }

  /** Arrow's safe cast to nanoseconds: the scaled value, null when it leaves the machine. */
  function Scaled(k: Kind, mul: int, v: int): Option<int> {
    if mul == 1 then Some(v) else Checked(k, v * mul)
  }

  /** The value an Arrow row ends up as: present and representable, then shifted. */
  function ArrowRow(k: Kind, sh: int, mul: int, present: bool, v: int): int {
    if present && Scaled(k, mul, v).Some? then FillVal(k, sh, Scaled(k, mul, v).value) else Null(k)
  }

  /** Row `i` of an Arrow array holds what row `i` of the chunk holds; under a null anything may lie. */
  ghost predicate SameRow(levels: seq<int>, maxdef: int, values: seq<int>, present: bool, v: int, i: nat)
    requires i < |levels| && Rank(levels, maxdef, |levels|) <= |values|
  {
    && present == (levels[i] == maxdef)
    && (present ==> Rank(levels, maxdef, i) < |values| && v == values[Rank(levels, maxdef, i)])
  }

  /** Both read paths, and what the value means, are one function: every unit, value, shift and null pattern. */
  lemma TwoPathsAgree(
    k: Kind, sh: int, mul: int, levels: seq<int>, maxdef: int, values: seq<int>, present: bool, v: int, i: nat)
    requires i < |levels| && Rank(levels, maxdef, |levels|) <= |values|
    requires SameRow(levels, maxdef, values, present, v, i)
    requires 0 <= sh <= MaxOf(k) && (present ==> Fits(k, v))
    ensures Row(ConvOf(k, sh, mul), levels, maxdef, values, i) == ArrowRow(k, sh, mul, present, v)
    ensures ArrowRow(k, sh, mul, present, v) == if present then Meaning(k, sh, mul, v) else Null(k)
  {
    if present {
      ShiftIsMeaning(k, sh, mul, v);
    }
  }

  /** The safe cast to nanoseconds: an array with the same rows, those null that would overflow. */
  method CastNs(a: Array, k: Kind, mul: int) returns (c: Array)
    requires ValidArray(a)
    ensures ValidArray(c) && |c.vals| == |a.vals|
    ensures forall i | 0 <= i < |a.vals| :: Present(c, i) <==> Present(a, i) && Scaled(k, mul, a.vals[i]).Some?
    ensures forall i | 0 <= i < |a.vals| && Present(c, i) :: c.vals[i] == Scaled(k, mul, a.vals[i]).value
  {
    if mul == 1 {
      return a;
    }
    var vals: seq<int> := [];
    var flags: seq<bool> := [];
    for i := 0 to |a.vals|
      invariant |vals| == |flags| == i
      invariant forall j | 0 <= j < i :: flags[j] <==> Present(a, j) && Scaled(k, mul, a.vals[j]).Some?
      invariant forall j | 0 <= j < i && flags[j] :: vals[j] == Scaled(k, mul, a.vals[j]).value
    {
      var x := Scaled(k, mul, a.vals[i]);
      var present := a.nulls.None? || At(a.nulls.value, i);
      vals := vals + [if x.Some? then x.value else 0];
      flags := flags + [present && x.Some?];
    }
    var same := (b: bool) => b;
    var nb := NullBits(flags, same);
    c := Array(vals, nb);
    if nb.Some? {
      forall i | 0 <= i < |flags|
        ensures At(nb.value, i) == flags[i]
      {
        assert Flags(flags, same)[i] == flags[i];
      }
    }
  }

  /** The Arrow path of a column: cast, then `fill_prim`. */
  method CastThenFill(a: Array, d: array<int>, off: nat, k: Kind, sh: int, mul: int)
    requires ValidArray(a) && off + |a.vals| <= d.Length
    modifies d
    ensures forall j | off <= j < off + |a.vals| :: d[j] == ArrowRow(k, sh, mul, Present(a, j - off), a.vals[j - off])
    ensures forall j | 0 <= j < d.Length && !(off <= j < off + |a.vals|) :: d[j] == old(d[j])
  {
    var c := CastNs(a, k, mul);
    FillPrim(c, d, off, k, sh);
    forall j | off <= j < off + |a.vals|
      ensures d[j] == ArrowRow(k, sh, mul, Present(a, j - off), a.vals[j - off])
    {
      assert d[j] == if Present(c, j - off) then FillVal(k, sh, c.vals[j - off]) else Null(k);
    }
  }

  /** The Arrow array and the chunk hold the same rows. */
  ghost predicate SameRows(a: Array, rd: Decoder, k: Kind)
    requires ValidArray(a) && rd.Valid()
    reads rd
  {
    && |a.vals| == |rd.levels|
    && forall i | 0 <= i < |a.vals| ::
         SameRow(rd.levels, rd.maxdef, rd.values, Present(a, i), a.vals[i], i) && (Present(a, i) ==> Fits(k, a.vals[i]))
  }

  /**
   One chunk, read both ways: the zero-copy loop over its levels and packed values,
   and the cast followed by `fill_prim` over the array Arrow makes of it, leave the
   same vector for every unit, shift, value and null pattern.
   */
  method BothPathsFillAlike(rd: Decoder, a: Array, d: array<int>, e: array<int>, off: nat, k: Kind, sh: int, mul: int)
    requires rd.Valid() && rd.honest && rd.at == 0 && !rd.Broken() && ValidArray(a) && SameRows(a, rd, k)
    requires off + |a.vals| <= d.Length && off + |a.vals| <= e.Length && d != e && 0 <= sh <= MaxOf(k)
    modifies rd`at, rd`short, rd`failed, d, e
    ensures forall j | off <= j < off + |a.vals| ::
              d[j] == e[j] == if Present(a, j - off) then Meaning(k, sh, mul, a.vals[j - off]) else Null(k)
  {
    var n := |a.vals|;
    var r := RawCol(rd, d, off, n, k, sh, mul);
    CastThenFill(a, e, off, k, sh, mul);
    forall j | off <= j < off + n
      ensures d[j] == e[j] == if Present(a, j - off) then Meaning(k, sh, mul, a.vals[j - off]) else Null(k)
    {
      var i: nat := j - off;
      assert SameRow(rd.levels, rd.maxdef, rd.values, Present(a, i), a.vals[i], i);
      TwoPathsAgree(k, sh, mul, rd.levels, rd.maxdef, rd.values, Present(a, i), a.vals[i], i);
      assert d[..][off + i] == d[j];
    }
  }

  // ---- writing ----

  /** May the writer store `x`, shifted by `sh`?  The sentinel and what would overflow become null. */
  predicate Storable(k: Kind, sh: int, x: int) {
    x != Null(k) && x <= MaxOf(k) - sh
  }

  function Mapped(s: seq<int>, f: int -> int): seq<int> {
    seq(|s|, i requires 0 <= i < |s| => f(s[i]))
  }

  /** The first `n` values transformed. */
  function MappedTo(s: seq<int>, f: int -> int, n: nat): seq<int> {
    Mapped(s[..Min(n, |s|)], f)
  }

  lemma MappedMore(s: seq<int>, f: int -> int, base: nat, c: seq<int>)
    requires base <= |s| && c == s[base..Min(base + 64, |s|)]
    ensures MappedTo(s, f, base) + Mapped(c, f) == MappedTo(s, f, base + 64)
  {}

  /** The pass so far: whole words of bits, and the values of the rows they cover. */
  ghost predicate ShiftedSoFar(
    s: seq<int>, f: int -> int, flags: seq<bool>, v: seq<int>, bits: seq<Word>, nulls: bool) {
    SaysSoFar(bits, flags) && v == MappedTo(s, f, 64 * |bits|) && (nulls <==> SomeNull(flags, 64 * |bits|))
  }

  /** One chunk of at most 64 values. */
  method ShiftChunk(s: seq<int>, f: int -> int, valid: int -> bool, v: seq<int>, bits: seq<Word>, nulls: bool)
    returns (v': seq<int>, bits': seq<Word>, nulls': bool)
    requires 64 * |bits| < |s| && ShiftedSoFar(s, f, Flags(s, valid), v, bits, nulls)
    ensures |bits'| == |bits| + 1 && ShiftedSoFar(s, f, Flags(s, valid), v', bits', nulls')
  {
    var base := 64 * |bits|;
    var c := s[base..Min(base + 64, |s|)];
    var w, bad := ChunkBits(c, valid);
    ChunkNulls(s, valid, base, c, bad);
    SaysMore(bits, Flags(s, valid), w);
    MappedMore(s, f, base, c);
    v', bits', nulls' := v + Mapped(c, f), bits + [w], nulls || bad;
  }

  /** `col_prim`'s one pass with a shift: transformed copy and bitmap together. */
  method ShiftAndBits(s: seq<int>, f: int -> int, valid: int -> bool) returns (v: seq<int>, nb: Option<seq<Word>>)
    ensures |v| == |s| && forall i | 0 <= i < |s| :: v[i] == f(s[i])
    ensures nb.None? <==> forall i | 0 <= i < |s| :: valid(s[i])
    ensures nb.Some? ==> Says(nb.value, Flags(s, valid))
  {
    var bits: seq<Word> := [];
    var nulls := false;
    v := [];
    while 64 * |bits| < |s|
      invariant ShiftedSoFar(s, f, Flags(s, valid), v, bits, nulls)
      decreases |s| - 64 * |bits|
    {
      v, bits, nulls := ShiftChunk(s, f, valid, v, bits, nulls);
    }
    nb := if nulls then Some(bits) else None;
    NullsExact(s, valid, 64 * |bits|);
  }

  /** `col_prim`: values borrowed as they are when nothing is shifted. */
  method ColPrim(s: seq<int>, k: Kind, sh: int) returns (a: Array)
    ensures |a.vals| == |s| && ValidArray(a)
    ensures sh == 0 ==> a.vals == s
    ensures a.nulls.None? <==> forall i | 0 <= i < |s| :: Storable(k, sh, s[i])
    ensures forall i | 0 <= i < |s| ::
              (Present(a, i) <==> Storable(k, sh, s[i])) && (sh != 0 ==> a.vals[i] == Wrap(k, s[i] + sh))
  {
    var valid := x => Storable(k, sh, x);
    if sh == 0 {
      var nb := NullBits(s, valid);
      a := Array(s, nb);
    } else {
      var v, nb := ShiftAndBits(s, x => Wrap(k, x + sh), valid);
      a := Array(v, nb);
    }
    if a.nulls.Some? {
      forall i | 0 <= i < |s|
        ensures At(a.nulls.value, i) == Storable(k, sh, s[i])
      {
        assert Flags(s, valid)[i] == valid(s[i]);
      }
    }
  }

  // ---- round trip ----

  /** What a column value must read back as. */
  function ReadBack(k: Kind, sh: int, x: int): int {
    if x > MaxOf(k) - sh then Null(k) else x
  }

  /** The levels and packed values Parquet keeps of a column: one level a row, nulls left out. */
  function Levels(s: seq<int>, keep: int -> bool): seq<int> {
    seq(|s|, i requires 0 <= i < |s| => if keep(s[i]) then 1 else 0)
  }

  function Packed(s: seq<int>, keep: int -> bool, f: int -> int): seq<int> {
    if s == [] then []
    else
      var n := |s| - 1;
      Packed(s[..n], keep, f) + if keep(s[n]) then [f(s[n])] else []
  }

  lemma {:induction false} PackedLength(s: seq<int>, keep: int -> bool, f: int -> int, i: nat)
    requires i <= |s|
    ensures |Packed(s[..i], keep, f)| == Rank(Levels(s, keep), 1, i)
  {
    if i > 0 {
      PackedLength(s, keep, f, i - 1);
      assert s[..i][..i - 1] == s[..i - 1];
    }
  }

  lemma {:induction false} PackedPrefix(s: seq<int>, keep: int -> bool, f: int -> int, i: nat)
    requires i <= |s|
    ensures Packed(s[..i], keep, f) <= Packed(s, keep, f)
  {
    if i == |s| {
      assert s[..i] == s;
    } else {
      PackedPrefix(s[..|s| - 1], keep, f, i);
      assert s[..|s| - 1][..i] == s[..i];
    }
  }

  /** The packed value of a kept row is found at the row's rank. */
  lemma PackedAtRank(s: seq<int>, keep: int -> bool, f: int -> int, i: nat)
    requires i < |s| && keep(s[i])
    ensures Rank(Levels(s, keep), 1, i) < |Packed(s, keep, f)|
    ensures Packed(s, keep, f)[Rank(Levels(s, keep), 1, i)] == f(s[i])
  {
    PackedLength(s, keep, f, i);
    PackedPrefix(s, keep, f, i + 1);
    assert s[..i + 1][..i] == s[..i];
  }

  lemma PackedCount(s: seq<int>, keep: int -> bool, f: int -> int)
    ensures |Packed(s, keep, f)| == Rank(Levels(s, keep), 1, |s|)
  {
    PackedLength(s, keep, f, |s|);
    assert s[..|s|] == s;
  }

  function LevelsOf(k: Kind, sh: int, s: seq<int>): seq<int> {
    Levels(s, x => Storable(k, sh, x))
  }

  function PackedOf(k: Kind, sh: int, s: seq<int>): seq<int> {
    Packed(s, x => Storable(k, sh, x), x => Wrap(k, x + sh))
  }

  lemma WrittenRow(k: Kind, sh: int, s: seq<int>, i: nat)
    requires i < |s|
    ensures |PackedOf(k, sh, s)| == Rank(LevelsOf(k, sh, s), 1, |s|)
    ensures SameRow(LevelsOf(k, sh, s), 1, PackedOf(k, sh, s), Storable(k, sh, s[i]), Wrap(k, s[i] + sh), i)
  {
    var keep := x => Storable(k, sh, x);
    var f := x => Wrap(k, x + sh);
    PackedCount(s, keep, f);
    assert LevelsOf(k, sh, s) == Levels(s, keep) && PackedOf(k, sh, s) == Packed(s, keep, f);
    if keep(s[i]) {
      PackedAtRank(s, keep, f, i);
    }
  }

  /**
   Write then read, down to the value: every value comes back, nulls stay null,
   and exactly the values too large for the shift come back null.
   */
  lemma RoundTrip(k: Kind, sh: int, s: seq<int>, i: nat)
    requires 0 <= sh <= MaxOf(k) && i < |s| && Fits(k, s[i])
    ensures var levels, values := LevelsOf(k, sh, s), PackedOf(k, sh, s);
            && Rank(levels, 1, |levels|) <= |values|
            && Row(ConvOf(k, sh, 1), levels, 1, values, i) == ReadBack(k, sh, s[i])
    ensures ArrowRow(k, sh, 1, Storable(k, sh, s[i]), Wrap(k, s[i] + sh)) == ReadBack(k, sh, s[i])
  {
    var levels, values := LevelsOf(k, sh, s), PackedOf(k, sh, s);
    WrittenRow(k, sh, s, i);
    TwoPathsAgree(k, sh, 1, levels, 1, values, Storable(k, sh, s[i]), Wrap(k, s[i] + sh), i);
  }

  /** Nothing too large exists without a shift, so KI, KJ, KT and KN columns come back whole. */
  lemma UnshiftedComesBack(k: Kind, x: int)
    requires Fits(k, x)
    ensures ReadBack(k, 0, x) == x
  {}

  /** The writer's array and the reader's Arrow path, end to end over one vector. */
  method WriteThenRead(s: seq<int>, k: Kind, sh: int) returns (out: seq<int>)
    requires 0 <= sh <= MaxOf(k) && forall i | 0 <= i < |s| :: Fits(k, s[i])
    ensures |out| == |s| && forall i | 0 <= i < |s| :: out[i] == ReadBack(k, sh, s[i])
    ensures sh == 0 ==> out == s
  {
    var a := ColPrim(s, k, sh);
    var d := new int[|s|];
    FillPrim(a, d, 0, k, sh);
    out := d[..];
    forall i | 0 <= i < |s|
      ensures out[i] == ReadBack(k, sh, s[i])
    {
      RoundTrip(k, sh, s, i);
    }
    if sh == 0 {
      forall i | 0 <= i < |s| {
        UnshiftedComesBack(k, s[i]);
      }
    }
  }

  /** `col_raw`: the values as they are and no bitmap, so 0Nh goes out as a value. */
  method ColRaw(s: seq<int>) returns (a: Array)
    ensures ValidArray(a) && a.vals == s && forall i | 0 <= i < |s| :: Present(a, i)
  {
    a := Array(s, None);
  }

  /** KH: written fully valid and read without a shift, every value comes back, 0Nh included. */
  method ShortsComeBack(s: seq<int>) returns (out: seq<int>)
    requires forall i | 0 <= i < |s| :: Fits(I16, s[i])
    ensures out == s
  {
    var a := ColRaw(s);
    var d := new int[|s|];
    FillPrim(a, d, 0, I16, 0);
    out := d[..];
    assert forall i | 0 <= i < |s| :: out[i] == d[i] == FillVal(I16, 0, s[i]);
  }

  /** The writer's levels and values through the zero-copy decoder: the same answer, batch by batch. */
  method WriteThenReadRaw(s: seq<int>, k: Kind, sh: int) returns (out: seq<int>)
    requires 0 <= sh <= MaxOf(k) && forall i | 0 <= i < |s| :: Fits(k, s[i])
    ensures |out| == |s| && forall i | 0 <= i < |s| :: out[i] == ReadBack(k, sh, s[i])
  {
    PackedCount(s, x => Storable(k, sh, x), x => Wrap(k, x + sh));
    var rd := new Decoder(LevelsOf(k, sh, s), PackedOf(k, sh, s), 1, true);
    var d := new int[|s|];
    var n := RawCol(rd, d, 0, |s|, k, sh, 1);
    out := d[..];
    forall i: nat | i < |s|
      ensures out[i] == ReadBack(k, sh, s[i])
    {
      RoundTrip(k, sh, s, i);
      assert d[..][0 + i] == d[i];
    }
  }
}
