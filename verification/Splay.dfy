/**
 The files of a splayed table: their two layouts, the writes that make them (a header
 with a zero count, chunk after chunk, and the count patched in at the end), and how
 they read back.
 */
module Splay {
  import opened Common
  import opened Endian
  import opened Handles
  import opened Machine

  /** L type tag of a symbol vector. */
  const KS: nat := 11

  /** Bytes an element takes, by type tag. */
  function Width(lt: nat): (w: nat)
    ensures w <= 16
  {
    var ws := [8, 1, 16, 0, 1, 2, 4, 8, 4, 8, 1, 8, 8, 4, 4, 8, 8, 4, 4, 4];
    if lt < |ws| then ws[lt] else 8
  }

  /** A vector: the bit patterns of its elements, or the texts behind its symbols. */
  datatype Column = Fixed(vals: seq<nat>) | Syms(syms: seq<Bytes>)

  function Count(c: Column): nat {
    if c.Fixed? then |c.vals| else |c.syms|
  }

  /** Is `c` a vector of type `lt`? */
  predicate Shaped(lt: nat, c: Column) {
    && lt < 0x8000
    && (lt == KS <==> c.Syms?)
    && (c.Fixed? ==> forall i | 0 <= i < |c.vals| :: c.vals[i] < Pow256(Width(lt)))
  }

  function Join(a: Column, b: Column): Column {
    match (a, b)
    case (Fixed(x), Fixed(y)) => Fixed(x + y)
    case (Syms(x), Syms(y)) => Syms(x + y)
    case _ => a
  }

  // ---- the two layouts ----

  function Zeros(n: nat): Bytes {
    seq(n, i => 0)
  }

  /** A fixed-width header up to its count. */
  function FixedFront(lt: nat): (h: Bytes)
    ensures |h| == 8
  {
    Zeros(4) + Le(lt, 2) + Zeros(2)
  }

  function FixedHead(lt: nat, n: nat): (h: Bytes)
    ensures |h| == 32
  {
    FixedFront(lt) + Le(n, 8) + Zeros(16)
  }

  /** A symbol header up to its count. */
  function SymFront(): (h: Bytes)
    ensures |h| == 4
  {
    [0xFF, 0x01] + Le(KS, 2)
  }

  function SymHead(n: nat): (h: Bytes)
    ensures |h| == 8
  {
    SymFront() + Le(n, 4)
  }

  function Head(lt: nat, n: nat): (h: Bytes)
    ensures |h| >= if lt == KS then 8 else 16
  {
    if lt == KS then SymHead(n) else FixedHead(lt, n)
  }

  /** The text a C string holds: up to the first NUL. */
  function CText(s: Bytes): Bytes {
    if s == [] || s[0] == 0 then [] else [s[0]] + CText(s[1..])
  }

  function FixedPayload(w: nat, vals: seq<nat>): Bytes {
    if vals == [] then [] else Le(vals[0], w) + FixedPayload(w, vals[1..])
  }

  function SymPayload(syms: seq<Bytes>): Bytes {
    if syms == [] then [] else CText(syms[0]) + [0] + SymPayload(syms[1..])
  }

  function Payload(lt: nat, c: Column): Bytes {
    if c.Fixed? then FixedPayload(Width(lt), c.vals) else SymPayload(c.syms)
  }

  /** A column serialised in one go. */
  function OneShot(lt: nat, c: Column): Bytes {
    Head(lt, Count(c)) + Payload(lt, c)
  }

  lemma {:induction false} FixedJoins(w: nat, a: seq<nat>, b: seq<nat>)
    ensures FixedPayload(w, a + b) == FixedPayload(w, a) + FixedPayload(w, b)
  {
    if a == [] {
      assert a + b == b;
    } else {
      assert (a + b)[1..] == a[1..] + b;
      FixedJoins(w, a[1..], b);
    }
  }

  lemma {:induction false} SymsJoin(a: seq<Bytes>, b: seq<Bytes>)
    ensures SymPayload(a + b) == SymPayload(a) + SymPayload(b)
  {
    if a == [] {
      assert a + b == b;
    } else {
      assert (a + b)[1..] == a[1..] + b;
      SymsJoin(a[1..], b);
    }
  }

  lemma SymsMore(syms: seq<Bytes>, i: nat)
    requires i < |syms|
    ensures SymPayload(syms[..i + 1]) == SymPayload(syms[..i]) + (CText(syms[i]) + [0])
  {
    assert syms[..i + 1] == syms[..i] + [syms[i]];
    SymsJoin(syms[..i], [syms[i]]);
    assert SymPayload([syms[i]]) == CText(syms[i]) + [0] + SymPayload([]);
  }

  lemma PayloadJoins(lt: nat, a: Column, b: Column)
    requires Shaped(lt, a) && Shaped(lt, b)
    ensures Shaped(lt, Join(a, b)) && Count(Join(a, b)) == Count(a) + Count(b)
    ensures Payload(lt, Join(a, b)) == Payload(lt, a) + Payload(lt, b)
  {
    if a.Fixed? {
      FixedJoins(Width(lt), a.vals, b.vals);
    } else {
      SymsJoin(a.syms, b.syms);
    }
  }

  // ---- the writes ----

  method HdrFixed(dir: Dir, h: nat, lt: nat)
    requires Open(dir.fs, h)
    modifies dir
    ensures dir.fs == Put(old(dir.fs), h, FixedHead(lt, 0))
  {
    ZeroCount(8);
    var b := Zeros(4) + Le(lt, 2) + Zeros(26);
    assert Zeros(26) == Zeros(2) + Zeros(8) + Zeros(16);
    assert b == FixedFront(lt) + Zeros(8) + Zeros(16);
    dir.WriteAll(h, b);
  }

  method HdrSyms(dir: Dir, h: nat, n: nat)
    requires Open(dir.fs, h)
    modifies dir
    ensures dir.fs == Put(old(dir.fs), h, SymHead(n))
  {
    dir.WriteAll(h, SymHead(n));
  }

  /** One chunk where the handle stands: the raw elements at once, or a text and its NUL at a time. */
  method AppendChunk(dir: Dir, h: nat, lt: nat, c: Column)
    requires Open(dir.fs, h)
    modifies dir
    ensures dir.fs == Put(old(dir.fs), h, Payload(lt, c))
  {
    match c {
      case Fixed(vals) => dir.WriteAll(h, FixedPayload(Width(lt), vals));
      case Syms(syms) =>
        ghost var fs := dir.fs;
        PutNothing(fs, h);
        assert syms[..0] == [];
        for i := 0 to |syms|
          invariant Open(dir.fs, h) && dir.fs == Put(fs, h, SymPayload(syms[..i]))
        {
          dir.WriteAll(h, CText(syms[i]) + [0]);
          PutPut(fs, h, SymPayload(syms[..i]), CText(syms[i]) + [0]);
          SymsMore(syms, i);
        }
        assert syms[..|syms|] == syms;
    }
  }

  /** Where the count of a symbol file, or of any other, is kept. */
  function CountSlot(sym: bool, n: nat): Slot {
    if sym then Slot(4, Le(n, 4)) else Slot(8, Le(n, 8))
  }

  method PatchCount(dir: Dir, h: nat, sym: bool, n: nat)
    requires Open(dir.fs, h)
    modifies dir
    ensures dir.fs == Patched(old(dir.fs), h, CountSlot(sym, n))
  {
    if sym {
      dir.Seek(h, 4);
      dir.WriteAll(h, Le(n, 4));
    } else {
      dir.Seek(h, 8);
      dir.WriteAll(h, Le(n, 8));
    }
  }

  lemma {:induction false} ZeroCount(w: nat)
    ensures Le(0, w) == Zeros(w)
  {
    if w > 0 {
      ZeroCount(w - 1);
    }
  }

  /** What a patch makes of a file's bytes. */
  function PatchOver(s: Bytes, sym: bool, n: nat): Bytes {
    Over(s, CountSlot(sym, n).p, CountSlot(sym, n).b)
  }

  /** A patch changes its 4-byte or 8-byte slot, to the count, and no other byte. */
  lemma PatchTouchesSlot(s: Bytes, sym: bool, n: nat)
    requires |s| >= if sym then 8 else 16
    ensures var now := PatchOver(s, sym, n);
            && |now| == |s|
            && (sym ==> now[..4] == s[..4] && now[4..8] == Le(n, 4) && now[8..] == s[8..])
            && (!sym ==> now[..8] == s[..8] && now[8..16] == Le(n, 8) && now[16..] == s[16..])
  {
    if sym {
      assert s == s[..4] + s[4..8] + s[8..];
      OverMiddle(s[..4], s[4..8], Le(n, 4), s[8..]);
      Cut(s[..4], Le(n, 4), s[8..]);
    } else {
      assert s == s[..8] + s[8..16] + s[16..];
      OverMiddle(s[..8], s[8..16], Le(n, 8), s[16..]);
      Cut(s[..8], Le(n, 8), s[16..]);
    }
  }

  /** Whatever count a header held, patched with `n` it is the file written with count `n`. */
  lemma PatchedIsWhole(lt: nat, m: nat, n: nat, payload: Bytes)
    ensures PatchOver(Head(lt, m) + payload, lt == KS, n) == Head(lt, n) + payload
  {
    if lt == KS {
      OverMiddle(SymFront(), Le(m, 4), Le(n, 4), payload);
    } else {
      FixedHeadSplits(lt, m, payload);
      FixedHeadSplits(lt, n, payload);
      OverMiddle(FixedFront(lt), Le(m, 8), Le(n, 8), Zeros(16) + payload);
    }
  }

  lemma Cut(a: Bytes, b: Bytes, c: Bytes)
    ensures (a + b + c)[..|a|] == a && (a + b + c)[|a|..|a| + |b|] == b && (a + b + c)[|a| + |b|..] == c
  {}

  lemma FixedHeadSplits(lt: nat, n: nat, payload: Bytes)
    ensures FixedHead(lt, n) + payload == FixedFront(lt) + Le(n, 8) + (Zeros(16) + payload)
  {}

  // ---- reading it back ----

  /** A 4-byte slot as the signed number it holds. */
  function Signed32(n: nat): int {
    if n < 0x8000_0000 then n else n - 0x1_0000_0000
  }

  function ReadVals(b: Bytes, n: nat, w: nat): Option<seq<nat>> {
    if n == 0 then Some([])
    else if |b| < w then None
    else
      var rest := ReadVals(b[w..], n - 1, w);
      if rest.None? then None else Some([FromLe(b[..w])] + rest.value)
  }

  /** One NUL-terminated text and what follows it. */
  function ReadText(b: Bytes): Option<(Bytes, Bytes)> {
    if b == [] then None
    else if b[0] == 0 then Some(([], b[1..]))
    else
      var r := ReadText(b[1..]);
      if r.None? then None else Some(([b[0]] + r.value.0, r.value.1))
  }

  function ReadTexts(b: Bytes, n: nat): Option<seq<Bytes>>
    decreases n
  {
    if n == 0 then Some([])
    else
      var t := ReadText(b);
      if t.None? then None
      else
        var rest := ReadTexts(t.value.1, n - 1);
        if rest.None? then None else Some([t.value.0] + rest.value)
  }

  /** Type and contents of a column file. */
  function ReadColumn(b: Bytes): Option<(nat, Column)> {
    if |b| >= 8 && b[..2] == [0xFF, 0x01] then
      var n := Signed32(FromLe(b[4..8]));
      if n < 0 then None
      else
        var ts := ReadTexts(b[8..], n);
        if ts.None? then None else Some((FromLe(b[2..4]), Syms(ts.value)))
    else if |b| < 32 then None
    else
      var lt := FromLe(b[4..6]);
      var vs := ReadVals(b[32..], FromLe(b[8..16]), Width(lt));
      if vs.None? then None else Some((lt, Fixed(vs.value)))
  }

  lemma LeExact(n: nat, w: nat)
    requires n < Pow256(w)
    ensures FromLe(Le(n, w)) == n
  {
    LeBack(n, w);
    DivModUnique(n, Pow256(w), 0, n);
  }

  lemma {:induction false} ValsBack(w: nat, vals: seq<nat>)
    requires forall i | 0 <= i < |vals| :: vals[i] < Pow256(w)
    ensures ReadVals(FixedPayload(w, vals), |vals|, w) == Some(vals)
  {
    if vals != [] {
      LeExact(vals[0], w);
      Cut([], Le(vals[0], w), FixedPayload(w, vals[1..]));
      assert FixedPayload(w, vals) == [] + Le(vals[0], w) + FixedPayload(w, vals[1..]);
      ValsBack(w, vals[1..]);
      assert vals == [vals[0]] + vals[1..];
    }
  }

  lemma {:induction false} TextBack(s: Bytes, rest: Bytes)
    ensures ReadText(CText(s) + [0] + rest) == Some((CText(s), rest))
  {
    if s == [] || s[0] == 0 {
      assert ([0] + rest)[1..] == rest;
      assert CText(s) + [0] + rest == [0] + rest;
    } else {
      TextBack(s[1..], rest);
      assert (CText(s) + [0] + rest)[1..] == CText(s[1..]) + [0] + rest;
    }
  }

  /** What symbols read back as. */
  function CTexts(syms: seq<Bytes>): (r: seq<Bytes>)
    ensures |r| == |syms|
  {
    seq(|syms|, i requires 0 <= i < |syms| => CText(syms[i]))
  }

  lemma {:induction false} TextsBack(syms: seq<Bytes>)
    ensures ReadTexts(SymPayload(syms), |syms|) == Some(CTexts(syms))
  {
    if syms != [] {
      TextBack(syms[0], SymPayload(syms[1..]));
      TextsBack(syms[1..]);
      assert CTexts(syms) == [CText(syms[0])] + CTexts(syms[1..]);
    }
  }

  lemma {:induction false} TextsCount(b: Bytes, n: nat)
    ensures ReadTexts(b, n).Some? ==> |ReadTexts(b, n).value| == n
    decreases n
  {
    if n > 0 && ReadText(b).Some? {
      TextsCount(ReadText(b).value.1, n - 1);
    }
  }

  /** A text survives exactly when it holds no NUL. */
  lemma {:induction false} CTextExact(s: Bytes)
    ensures CText(s) == s <==> 0 !in s
  {
    if s != [] && s[0] != 0 {
      CTextExact(s[1..]);
      assert s == [s[0]] + s[1..];
      assert CText(s)[1..] == CText(s[1..]);
    }
  }

  /** Otherwise what comes before its first NUL is left. */
  lemma {:induction false} CTextStops(s: Bytes, i: nat)
    requires i < |s| && s[i] == 0 && 0 !in s[..i]
    ensures CText(s) == s[..i]
  {
    if i > 0 {
      assert s[..i] == [s[0]] + s[1..][..i - 1];
      CTextStops(s[1..], i - 1);
    }
  }

  /** The head of a file of 258 longs, byte by byte ... */
  lemma LongHeadBytes()
    ensures Head(7, 258) == [0, 0, 0, 0, 7, 0, 0, 0, 2, 1, 0, 0, 0, 0, 0, 0] + [0, 0, 0, 0, 0, 0, 0, 0, 0, 0, 0, 0, 0, 0, 0, 0]
  {
    assert Le(7, 2) == [7] + ([0] + []);
    ZeroCount(6);
    assert Le(258, 8) == [2] + ([1] + Zeros(6));
    assert FixedFront(7) == [0, 0, 0, 0, 7, 0, 0, 0];
  }

  /** ... and of one of 258 symbols. */
  lemma SymHeadBytes()
    ensures Head(11, 258) == [0xFF, 0x01, 11, 0, 2, 1, 0, 0]
  {
    assert Le(11, 2) == [11] + ([0] + []);
    assert Le(258, 4) == [2] + ([1] + ([0] + ([0] + [])));
  }

  /** An element is as wide as the machine's number of its type. */
  lemma WidthsAreSizes(lt: nat)
    ensures lt in {1, 4} ==> Pow256(Width(lt)) == 256
    ensures lt == 5 ==> Pow256(Width(lt)) == Size(I16)
    ensures lt in {6, 8, 14, 19} ==> Pow256(Width(lt)) == Size(I32)
    ensures lt in {7, 9, 12, 16} ==> Pow256(Width(lt)) == Size(I64)
  {
    assert Pow256(1) == 256 * Pow256(0);
    PowersOf256();
  }

  lemma PowersOf256()
    ensures Pow256(2) == 0x1_0000 && Pow256(4) == 0x1_0000_0000 && Pow256(8) == 0x1_0000_0000_0000_0000
  {
    assert Pow256(2) == 256 * Pow256(1);
    assert Pow256(4) == 256 * (256 * Pow256(2));
    assert Pow256(8) == 256 * (256 * (256 * (256 * Pow256(4))));
  }

  lemma FixedSlots(lt: nat, n: nat, payload: Bytes)
    ensures var b := FixedHead(lt, n) + payload;
            && b[0] == 0 && b[4..6] == Le(lt, 2) && b[8..16] == Le(n, 8) && b[32..] == payload
  {
    var b := FixedHead(lt, n) + payload;
    Cut(Zeros(4), Le(lt, 2), Zeros(2));
    Cut(FixedFront(lt), Le(n, 8), Zeros(16) + payload);
    assert b == FixedFront(lt) + Le(n, 8) + (Zeros(16) + payload);
    assert b[4..6] == b[..8][4..6];
    assert b[0] == b[..8][0] == Zeros(4)[0];
  }

  lemma SymSlots(n: nat, payload: Bytes)
    ensures var b := SymHead(n) + payload;
            && b[..2] == [0xFF, 0x01] && b[2..4] == Le(KS, 2) && b[4..8] == Le(n, 4) && b[8..] == payload
  {
    var b := SymHead(n) + payload;
    Cut(SymFront(), Le(n, 4), payload);
    assert b[..2] == b[..4][..2] == SymFront()[..2];
    assert b[2..4] == b[..4][2..] == SymFront()[2..];
  }

  lemma ReadsFixed(b: Bytes, lt: nat, vals: seq<nat>)
    requires |b| >= 32 && b[0] == 0 && FromLe(b[4..6]) == lt && FromLe(b[8..16]) == |vals|
    requires ReadVals(b[32..], |vals|, Width(lt)) == Some(vals)
    ensures ReadColumn(b) == Some((lt, Fixed(vals)))
  {
    assert b[..2][0] == b[0];
  }

  /** A fixed-width column reads back whole for every count the header can hold. */
  lemma FixedReadsBack(lt: nat, vals: seq<nat>)
    requires Shaped(lt, Fixed(vals)) && |vals| < 0x1_0000_0000_0000_0000
    ensures ReadColumn(OneShot(lt, Fixed(vals))) == Some((lt, Fixed(vals)))
  {
    PowersOf256();
    LeExact(lt, 2);
    LeExact(|vals|, 8);
    FixedSlots(lt, |vals|, FixedPayload(Width(lt), vals));
    ValsBack(Width(lt), vals);
    ReadsFixed(FixedHead(lt, |vals|) + FixedPayload(Width(lt), vals), lt, vals);
  }

  lemma ReadsSyms(b: Bytes, count: nat, payload: Bytes)
    requires |b| >= 8 && b[..2] == [0xFF, 0x01] && FromLe(b[2..4]) == KS && FromLe(b[4..8]) == count && b[8..] == payload
    ensures var n := Signed32(count);
            ReadColumn(b) == if n < 0 || ReadTexts(payload, n).None? then None
                             else Some((KS, Syms(ReadTexts(payload, n).value)))
  {}

  /** What a symbol file of `n` declared symbols holds depends on its count modulo 2^32. */
  lemma SymFileReads(n: nat, payload: Bytes)
    ensures var m := Signed32(n % 0x1_0000_0000);
            ReadColumn(SymHead(n) + payload) == if m < 0 || ReadTexts(payload, m).None? then None
                                                else Some((KS, Syms(ReadTexts(payload, m).value)))
  {
    PowersOf256();
    LeExact(KS, 2);
    LeBack(n, 4);
    SymSlots(n, payload);
    ReadsSyms(SymHead(n) + payload, n % 0x1_0000_0000, payload);
  }

  /**
   A symbol column reads back, each text up to its first NUL, exactly while its
   count fits 31 bits: one symbol more and the slot holds a negative number.
   */
  lemma SymbolsReadBack(syms: seq<Bytes>)
    ensures ReadColumn(OneShot(KS, Syms(syms))) == Some((KS, Syms(CTexts(syms)))) <==> |syms| < 0x8000_0000
  {
    SymFileReads(|syms|, SymPayload(syms));
    var n := Signed32(|syms| % 0x1_0000_0000);
    if |syms| < 0x8000_0000 {
      TextsBack(syms);
    } else if n >= 0 {
      TextsCount(SymPayload(syms), n);
    }
  }
}
