/**
 Decoding a symbol column as codes, and why the pair it answers says what a plain
 read would have said, whatever the page hashes did.
 */
module CodesRead {
  import opened Bitmaps
  import opened Codes
  import opened Common
  import opened Mru
  import opened Symbols
  import opened Words

  /** `D[C]`: an index past the end reads as the empty symbol. */
  function Lookup(cd: Codes, c: int): Sym {
    if 0 <= c < |cd.d| then cd.d[c] else Empty()
  }

  /** A dictionary's values as union ids, or None when one is not in the union. */
  function LutOf(values: seq<Option<Bytes>>, cd: Codes): Option<seq<nat>> {
    if values == [] then Some([])
    else
      var n := |values| - 1;
      var before := LutOf(values[..n], cd);
      if before.None? || TextOf(values[n]) !in cd.ix then None
      else Some(before.value + [cd.ix[TextOf(values[n])]])
  }

  lemma {:induction false} LutExact(values: seq<Option<Bytes>>, cd: Codes)
    ensures LutOf(values, cd).Some? <==> forall k | 0 <= k < |values| :: TextOf(values[k]) in cd.ix
    ensures LutOf(values, cd).Some? ==>
              && |LutOf(values, cd).value| == |values|
              && forall k | 0 <= k < |values| :: LutOf(values, cd).value[k] == cd.ix[TextOf(values[k])]
  {
    if values != [] {
      LutExact(values[..|values| - 1], cd);
    }
  }

  /** The code row `i` gets. */
  function CodeOf(lut: seq<nat>, empty: nat, key: int, present: bool): nat {
    if present && 0 <= key < |lut| then lut[key] else empty
  }

  /** A stored code always reads as the row's own symbol. */
  lemma CodeReadsBack(cd: Codes, values: seq<Option<Bytes>>, key: int, present: bool)
    requires GoodCodes(cd) && |cd.d| < 0x8000_0000
    requires LutOf(values, cd).Some?
    ensures var c := CodeOf(LutOf(values, cd).value, cd.empty, key, present);
            && Stored(cd.lt, c) == c
            && Lookup(cd, Stored(cd.lt, c)) == Intern(TextOf(Logical(values, key, present)))
  {
    LutExact(values, cd);
    var n := Max(|cd.d|, cd.empty + 1);
    WidthExact(n);
    var c := CodeOf(LutOf(values, cd).value, cd.empty, key, present);
    assert c < n;
  }

  /** Once statistics admit nulls, every stored code indexes the dictionary. */
  lemma CodeInRange(cd: Codes, values: seq<Option<Bytes>>, key: int, present: bool)
    requires GoodCodes(cd) && LutOf(values, cd).Some?
    ensures CodeOf(LutOf(values, cd).value, cd.empty, key, present) < |cd.d| <==>
            [] in cd.ix || (present && 0 <= key < |values|)
  {
    LutExact(values, cd);
  }

  // ---- the union and hash collisions ----

  /** Pages with one hash hold the same texts. */
  ghost predicate NoCollision(pages: seq<DictPage>) {
    forall p, q, t | p in pages && q in pages && p.h == q.h :: t in p.entries <==> t in q.entries
  }

  lemma {:induction false} KeptHasRepeats(pages: seq<DictPage>, p: DictPage, t: Bytes)
    requires NoCollision(pages + [p]) && Repeats(pages, p.h) && t in p.entries
    ensures t in Kept(pages)
  {
    var n := |pages| - 1;
    var q :| q in pages && q.h == p.h;
    var last := pages[n];
    assert pages == pages[..n] + [last];
    if Repeats(pages[..n], p.h) {
      assert forall x | x in pages[..n] + [p] :: x in pages + [p];
      KeptHasRepeats(pages[..n], p, t);
    } else {
      assert q == last;
      assert last in pages + [p] && p in pages + [p];
    }
  }

  lemma {:induction false} FirstSeenSkips(a: seq<Bytes>, b: seq<Bytes>)
    requires forall t | t in b :: t in a
    ensures FirstSeen(a + b) == FirstSeen(a)
  {
    if b == [] {
      assert a + b == a;
    } else {
      var n := |b| - 1;
      assert (a + b)[..|a| + n] == a + b[..n];
      FirstSeenSkips(a, b[..n]);
      assert b[n] in a;
    }
  }

  lemma {:induction false} FirstSeenExtends(a: seq<Bytes>, b: seq<Bytes>, c: seq<Bytes>)
    requires FirstSeen(a) == FirstSeen(b)
    ensures FirstSeen(a + c) == FirstSeen(b + c)
  {
    if c == [] {
      assert a + c == a && b + c == b;
    } else {
      var n := |c| - 1;
      var x, y := a + c[..n], b + c[..n];
      assert a + c == x + [c[n]] && b + c == y + [c[n]];
      FirstSeenExtends(a, b, c[..n]);
      FirstSeenMembers(x, c[n]);
      FirstSeenMembers(y, c[n]);
      FirstSeenMore(x, c[n]);
      FirstSeenMore(y, c[n]);
    }
  }

  /** Without a collision, skipping repeated hashes costs nothing: the union is every page's, first seen first. */
  lemma {:induction false} SkippingIsFree(pages: seq<DictPage>)
    requires NoCollision(pages)
    ensures FirstSeen(Kept(pages)) == FirstSeen(AllTexts(pages))
  {
    if pages != [] {
      var n := |pages| - 1;
      var before, p := pages[..n], pages[n];
      assert pages == before + [p];
      assert forall x | x in before :: x in pages;
      SkippingIsFree(before);
      FirstSeenExtends(Kept(before), AllTexts(before), p.entries);
      if Repeats(before, p.h) {
        forall t | t in p.entries
          ensures t in Kept(before)
        {
          KeptHasRepeats(before, p, t);
        }
        FirstSeenSkips(Kept(before), p.entries);
        assert Kept(pages) == Kept(before);
      }
    }
  }

  /** So a column is read twice only when a page fell back to plain, or two different pages hash alike. */
  lemma CompleteUnionPairs(pages: seq<DictPage>, nulls: bool, cd: Codes, values: seq<Option<Bytes>>)
    requires NoCollision(pages) && GoodCodes(cd)
    requires Texts(cd.d) == FirstSeen(Kept(pages) + if nulls then [[]] else [])
    requires forall k | 0 <= k < |values| :: TextOf(values[k]) in AllTexts(pages)
    ensures LutOf(values, cd).Some?
  {
    LutExact(values, cd);
    SkippingIsFree(pages);
    forall k | 0 <= k < |values|
      ensures TextOf(values[k]) in cd.ix
    {
      var t := TextOf(values[k]);
      FirstSeenMembers(AllTexts(pages), t);
      FirstSeenMembers(Kept(pages), t);
      FirstSeenMembers(Kept(pages) + if nulls then [[]] else [], t);
      var i :| 0 <= i < |cd.d| && Texts(cd.d)[i] == t;
      assert cd.d[i].text == t;
    }
  }

  // ---- decoding ----

  /** One batch of a symbol column: the dictionary shape, or the plain one. */
  datatype Batch = Keyed(id: nat, keys: seq<int>, nulls: Option<seq<Word>>) | Strings(strs: seq<Option<Bytes>>)

  function Size(b: Batch): nat {
    if b.Keyed? then |b.keys| else |b.strs|
  }

  ghost predicate ValidBatch(b: Batch) {
    b.Keyed? && b.nulls.Some? ==> DivCeil(|b.keys|, 64) <= |b.nulls.value| && |b.keys| <= 64 * |b.nulls.value|
  }

  ghost predicate Present(b: Batch, i: nat)
    requires ValidBatch(b) && b.Keyed? && i < Size(b)
  {
    b.nulls.Some? ==> At(b.nulls.value, i)
  }

  /** The symbol row `i` of the batch stands for. */
  ghost function SymbolAt(contents: nat -> seq<Option<Bytes>>, b: Batch, i: nat): Sym
    requires ValidBatch(b) && i < Size(b)
  {
    Intern(TextOf(if b.Keyed? then Logical(contents(b.id), b.keys[i], Present(b, i)) else b.strs[i]))
  }

  /** The memo of lookup tables: a dictionary belongs to one column, hence to one union. */
  class LutCache {
    const contents: nat -> seq<Option<Bytes>>
    ghost const unions: nat -> Codes
    var luts: List<nat, Option<seq<nat>>>

    ghost predicate Valid()
      reads this
    {
      && |luts| <= DICTS && Distinct(Keys(luts))
      && (forall i | 0 <= i < |luts| :: luts[i].1 == LutOf(contents(luts[i].0), unions(luts[i].0)))
    }

    constructor (contents: nat -> seq<Option<Bytes>>, ghost unions: nat -> Codes)
      ensures Valid() && luts == []
      ensures this.contents == contents && this.unions == unions
    {
      this.contents, this.unions, this.luts := contents, unions, [];
    }

    /** Union ids of dictionary `id`, stopping at the first value the union lacks. */
    method Build(id: nat, cd: Codes) returns (t: Option<seq<nat>>)
      ensures t == LutOf(contents(id), cd)
    {
      var values := contents(id);
      var ids: seq<nat> := [];
      LutExact(values, cd);
      for k := 0 to |values|
        invariant LutOf(values[..k], cd) == Some(ids)
      {
        assert values[..k + 1][..k] == values[..k];
        var b := TextOf(values[k]);
        if b !in cd.ix {
          return None;
        }
        ids := ids + [cd.ix[b]];
      }
      assert values[..|values|] == values;
      t := Some(ids);
    }

    method Lut(id: nat, cd: Codes) returns (t: Option<seq<nat>>)
      requires Valid() && cd == unions(id)
      modifies this`luts
      ensures Valid() && t == LutOf(contents(id), cd)
      ensures Find(old(luts), id).Some? ==> luts == ToFront(old(luts), Find(old(luts), id).value)
      ensures Find(old(luts), id).None? ==> luts == PushFront(old(luts), (id, t), 4)
    {
      var i := Find(luts, id);
      if i.Some? {
        HitKeepsDistinct(luts, i.value);
        luts := ToFront(luts, i.value);
        return luts[0].1;
      }
      t := Build(id, cd);
      MissKeepsDistinct(luts, id, t, DICTS);
      luts := PushFront(luts, (id, t), DICTS);
    }

    /** `sym_codes` on one batch: codes written, or `give` when the column cannot be a pair. */
    method FillCodes(b: Batch, cd: Codes, d: array<int>, off: nat) returns (give: bool)
      requires Valid() && ValidBatch(b) && off + Size(b) <= d.Length
      requires b.Keyed? ==> cd == unions(b.id)
      modifies this`luts, d
      ensures Valid()
      ensures give <==> b.Strings? || LutOf(contents(b.id), cd).None?
      ensures !give ==> forall j | off <= j < off + Size(b) ::
                d[j] == Stored(cd.lt, CodeOf(LutOf(contents(b.id), cd).value, cd.empty, b.keys[j - off], Present(b, j - off)))
      ensures forall j | 0 <= j < d.Length && !(off <= j < off + Size(b)) :: d[j] == old(d[j])
    {
      if b.Strings? {
        return true;
      }
      var lut := Lut(b.id, cd);
      if lut.None? {
        return true;
      }
      GatherCodes(lut.value, cd, b.keys, d, off);
      if b.nulls.Some? {
        var seen := EachNull(b.nulls.value, |b.keys|);
        Blank(seen, Stored(cd.lt, cd.empty), d, off, |b.keys|);
        forall i: nat | i < |b.keys|
          ensures i in seen <==> !Present(b, i)
        {
          assert Read(b.nulls.value, |b.keys|)[i] == At(b.nulls.value, i);
        }
      }
      give := false;
    }
  }

  method GatherCodes(lut: seq<nat>, cd: Codes, keys: seq<int>, d: array<int>, off: nat)
    requires off + |keys| <= d.Length
    modifies d
    ensures forall j | off <= j < off + |keys| :: d[j] == Stored(cd.lt, CodeOf(lut, cd.empty, keys[j - off], true))
    ensures forall j | 0 <= j < d.Length && !(off <= j < off + |keys|) :: d[j] == old(d[j])
  {
    for i := off to off + |keys|
      invariant forall j | off <= j < i :: d[j] == Stored(cd.lt, CodeOf(lut, cd.empty, keys[j - off], true))
      invariant forall j | 0 <= j < d.Length && !(off <= j < i) :: d[j] == old(d[j])
    {
      d[i] := Stored(cd.lt, CodeOf(lut, cd.empty, keys[i - off], true));
    }
  }

  // ---- a whole column ----

  /** A symbol column as `read` answers it. */
  datatype Column = Pair(cd: Codes, codes: seq<int>) | Plain(syms: seq<Sym>)

  function Shown(c: Column): seq<Sym> {
    match c
    case Pair(cd, codes) => seq(|codes|, i requires 0 <= i < |codes| => Lookup(cd, codes[i]))
    case Plain(syms) => syms
  }

  function Rows(bs: seq<Batch>): nat {
    if bs == [] then 0 else Rows(bs[..|bs| - 1]) + Size(bs[|bs| - 1])
  }

  /** The symbols of all batches, end to end. */
  ghost function AllSymbols(contents: nat -> seq<Option<Bytes>>, bs: seq<Batch>): (r: seq<Sym>)
    requires forall b | b in bs :: ValidBatch(b)
    ensures |r| == Rows(bs)
  {
    if bs == [] then []
    else
      var b := bs[|bs| - 1];
      AllSymbols(contents, bs[..|bs| - 1]) + BatchSymbols(contents, b)
  }

  /** Does the union hold all the batch needs? */
  ghost predicate Fits(contents: nat -> seq<Option<Bytes>>, cd: Codes, b: Batch) {
    b.Keyed? && LutOf(contents(b.id), cd).Some?
  }

  /** The symbols of one batch. */
  ghost function BatchSymbols(contents: nat -> seq<Option<Bytes>>, b: Batch): seq<Sym>
    requires ValidBatch(b)
  {
    seq(Size(b), i requires 0 <= i < Size(b) => SymbolAt(contents, b, i))
  }

  /** Row `i` of batch `k` comes after the rows of the earlier batches: its dictionary's value, or its own string. */
  lemma {:induction false} AllSymbolsAt(contents: nat -> seq<Option<Bytes>>, bs: seq<Batch>, n: nat, k: nat, i: nat)
    requires (forall b | b in bs :: ValidBatch(b)) && k < n <= |bs| && i < Size(bs[k])
    ensures Rows(bs[..k]) + i < Rows(bs[..n])
    ensures AllSymbols(contents, bs[..n])[Rows(bs[..k]) + i] ==
            match bs[k]
            case Keyed(id, keys, _) =>
              if Present(bs[k], i) && 0 <= keys[i] < |contents(id)| && contents(id)[keys[i]].Some? then
                Sym(contents(id)[keys[i]].value)
              else Sym([])
            case Strings(strs) => Sym(if strs[i].Some? then strs[i].value else [])
    decreases n
  {
    assert bs[..n][..n - 1] == bs[..n - 1];
    if k < n - 1 {
      AllSymbolsAt(contents, bs, n - 1, k, i);
    }
  }

  method PairBatch(lc: LutCache, cd: Codes, b: Batch) returns (c: Option<seq<int>>)
    requires lc.Valid() && GoodCodes(cd) && |cd.d| < 0x8000_0000
    requires ValidBatch(b) && (b.Keyed? ==> lc.unions(b.id) == cd)
    modifies lc
    ensures lc.Valid()
    ensures c.Some? <==> Fits(lc.contents, cd, b)
    ensures c.Some? ==> Shown(Pair(cd, c.value)) == BatchSymbols(lc.contents, b)
  {
    var d := new int[Size(b)];
    var give := lc.FillCodes(b, cd, d, 0);
    if give {
      return None;
    }
    BatchSays(lc.contents, cd, b, d[..]);
    c := Some(d[..]);
  }

  /** Decode every batch as codes; stop at the first that cannot be. */
  method TryPair(lc: LutCache, cd: Codes, bs: seq<Batch>) returns (c: Option<seq<int>>)
    requires lc.Valid() && GoodCodes(cd) && |cd.d| < 0x8000_0000
    requires forall b | b in bs :: ValidBatch(b) && (b.Keyed? ==> lc.unions(b.id) == cd)
    modifies lc
    ensures lc.Valid()
    ensures c.Some? ==> Shown(Pair(cd, c.value)) == AllSymbols(lc.contents, bs)
    ensures c.Some? <==> forall b | b in bs :: Fits(lc.contents, cd, b)
  {
    var codes: seq<int> := [];
    for k := 0 to |bs|
      invariant lc.Valid()
      invariant Shown(Pair(cd, codes)) == AllSymbols(lc.contents, bs[..k])
      invariant forall b | b in bs[..k] :: Fits(lc.contents, cd, b)
    {
      assert bs[k] in bs && bs[..k + 1] == bs[..k] + [bs[k]];
      var more := PairBatch(lc, cd, bs[k]);
      if more.None? {
        return None;
      }
      PairAppends(cd, codes, more.value);
      SymbolsAppend(lc.contents, bs[..k], bs[k]);
      codes := codes + more.value;
    }
    assert bs[..|bs|] == bs;
    c := Some(codes);
  }

  lemma SymbolsAppend(contents: nat -> seq<Option<Bytes>>, bs: seq<Batch>, b: Batch)
    requires forall x | x in bs + [b] :: ValidBatch(x)
    ensures AllSymbols(contents, bs + [b]) == AllSymbols(contents, bs) + BatchSymbols(contents, b)
  {
    assert (bs + [b])[..|bs|] == bs;
  }

  lemma BatchSays(contents: nat -> seq<Option<Bytes>>, cd: Codes, b: Batch, codes: seq<int>)
    requires ValidBatch(b) && b.Keyed? && |codes| == Size(b)
    requires GoodCodes(cd) && |cd.d| < 0x8000_0000 && LutOf(contents(b.id), cd).Some?
    requires forall i | 0 <= i < |codes| ::
               codes[i] == Stored(cd.lt, CodeOf(LutOf(contents(b.id), cd).value, cd.empty, b.keys[i], Present(b, i)))
    ensures Shown(Pair(cd, codes)) == BatchSymbols(contents, b)
  {
    forall i | 0 <= i < |codes|
      ensures Lookup(cd, codes[i]) == SymbolAt(contents, b, i)
    {
      CodeReadsBack(cd, contents(b.id), b.keys[i], Present(b, i));
    }
  }

  lemma PairAppends(cd: Codes, a: seq<int>, b: seq<int>)
    ensures Shown(Pair(cd, a + b)) == Shown(Pair(cd, a)) + Shown(Pair(cd, b))
  {
    var x, y, z := Shown(Pair(cd, a + b)), Shown(Pair(cd, a)), Shown(Pair(cd, b));
    forall i | 0 <= i < |x|
      ensures x[i] == (y + z)[i]
    {
      assert x[i] == Lookup(cd, (a + b)[i]);
    }
  }

  /** The plain read of the same batches. */
  method ReadPlain(sc: SymCache, bs: seq<Batch>) returns (syms: seq<Sym>)
    requires sc.Valid() && forall b | b in bs :: ValidBatch(b)
    modifies sc`dicts, sc.slots
    ensures sc.Valid() && syms == AllSymbols(sc.contents, bs)
  {
    syms := [];
    for k := 0 to |bs|
      invariant sc.Valid() && syms == AllSymbols(sc.contents, bs[..k])
    {
      var b := bs[k];
      var d := new Sym[Size(b)](i => Empty());
      assert b in bs;
      match b {
        case Keyed(id, keys, nulls) => sc.FillDict(id, keys, nulls, d, 0);
        case Strings(strs) => sc.FillPlain(strs, d, 0);
      }
      assert d[..] == BatchSymbols(sc.contents, b);
      assert bs[..k + 1] == bs[..k] + [b];
      SymbolsAppend(sc.contents, bs[..k], b);
      syms := syms + d[..];
    }
    assert bs[..|bs|] == bs;
  }

  /**
   A symbol column read with `codes` on: a pair when every batch fits the union,
   else read again as symbols.  Either way it says what the plain read says.
   */
  method ReadSymbols(lc: LutCache, sc: SymCache, cd: Codes, bs: seq<Batch>) returns (c: Column)
    requires lc.Valid() && sc.Valid() && lc.contents == sc.contents
    requires GoodCodes(cd) && |cd.d| < 0x8000_0000
    requires forall b | b in bs :: ValidBatch(b) && (b.Keyed? ==> lc.unions(b.id) == cd)
    modifies lc, sc`dicts, sc.slots
    ensures Shown(c) == AllSymbols(sc.contents, bs)
    ensures c.Pair? <==> forall b | b in bs :: Fits(sc.contents, cd, b)
  {
    var codes := TryPair(lc, cd, bs);
    if codes.Some? {
      c := Pair(cd, codes.value);
    } else {
      var syms := ReadPlain(sc, bs);
      c := Plain(syms);
    }
  }
}
