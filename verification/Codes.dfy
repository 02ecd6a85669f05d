/**
 Symbol columns as (dictionary; codes): one union of every row group's dictionary,
 and one index a row into it.
 */
module Codes {
  import opened Common
  import opened Endian
  import opened Symbols

  /** L type of a codes vector. */
  datatype Width = KG | KH | KI

  function WidthOf(n: nat): Width {
    if n <= 256 then KG else if n <= 32768 then KH else KI
  }

  /** A code as the vector stores it: cast to u8, i16 or i32. */
  function Stored(w: Width, c: nat): int {
    match w
    case KG => c % 0x100
    case KH => (c + 0x8000) % 0x1_0000 - 0x8000
    case KI => (c + 0x8000_0000) % 0x1_0000_0000 - 0x8000_0000
  }

  /** Does the width store every code below `n` unchanged? */
  ghost predicate Holds(w: Width, n: nat) {
    forall c: nat | c < n :: Stored(w, c) == c
  }

  /** The width fits `n` codes whenever there are no more than 2^31, and no narrower one would: 32 bits otherwise. */
  ghost predicate Narrowest(w: Width, n: nat) {
    && (Holds(w, n) <==> n <= 0x8000_0000)
    && (w.KH? ==> exists c: nat | c < n :: Stored(KG, c) != c)
    && (w.KI? ==> exists c: nat | c < n :: Stored(KG, c) != c && Stored(KH, c) != c)
    && (n > 0x8000_0000 ==> w.KI?)
  }

  lemma WidthExact(n: nat)
    ensures Narrowest(WidthOf(n), n)
  {
    if n > 0x8000_0000 {
      assert Stored(KI, 0x8000_0000) == -0x8000_0000;
    }
    if n > 32768 {
      assert Stored(KG, 32768) == 0 && Stored(KH, 32768) == -32768;
    } else if n > 256 {
      assert Stored(KG, 256) == 0;
    }
  }

  datatype Codes = Codes(d: seq<Sym>, ix: map<Bytes, nat>, empty: nat, lt: Width)

  // ---- the entries of one dictionary page ----

  /** A span of the page buffer: (offset, length). */
  type Span = (nat, nat)

  function LengthAt(buf: Bytes, i: nat): Option<nat> {
    if i + 4 <= |buf| && i + 4 + FromLe(buf[i..i + 4]) <= |buf| then Some(FromLe(buf[i..i + 4])) else None
  }

  /** Spans of `num` entries from offset `i` on: each a 4-byte length and its bytes. */
  function SpansFrom(buf: Bytes, i: nat, num: nat): Result<seq<Span>>
    decreases num
  {
    if num == 0 then Ok([])
    else
      match LengthAt(buf, i)
      case None => Err("short dictionary")
      case Some(n) =>
        (match SpansFrom(buf, i + 4 + n, num - 1)
         case Err(e) => Err(e)
         case Ok(rest) => Ok([(i + 4, n)] + rest))
  }

  method ParseSpans(buf: Bytes, num: nat) returns (r: Result<seq<Span>>)
    ensures r == SpansFrom(buf, 0, num)
  {
    var out: seq<Span> := [];
    var i := 0;
    var left := num;
    assert forall rest: seq<Span> :: [] + rest == rest;
    while left > 0
      invariant SpansFrom(buf, 0, num) ==
                match SpansFrom(buf, i, left)
                case Err(e) => Err(e)
                case Ok(rest) => Ok(out + rest)
    {
      var n := LengthAt(buf, i);
      if n.None? {
        return Err("short dictionary");
      }
      ghost var rest := SpansFrom(buf, i + 4 + n.value, left - 1);
      if rest.Ok? {
        assert out + ([(i + 4, n.value)] + rest.value) == out + [(i + 4, n.value)] + rest.value;
      }
      out := out + [(i + 4, n.value)];
      i := i + 4 + n.value;
      left := left - 1;
    }
    assert out + [] == out;
    r := Ok(out);
  }

  /** `rs` are the entries the buffer holds from `i` on: each after its length, end to start, and inside the buffer. */
  ghost predicate Chained(buf: Bytes, i: nat, rs: seq<Span>)
    decreases |rs|
  {
    rs != [] ==>
      && i + 4 <= |buf| && rs[0] == (i + 4, FromLe(buf[i..i + 4]))
      && rs[0].0 + rs[0].1 <= |buf| && Chained(buf, rs[0].0 + rs[0].1, rs[1..])
  }

  /** The parser answers exactly the entries that are there, and refuses exactly when they are not all there. */
  lemma {:induction false} SpansExact(buf: Bytes, i: nat, num: nat, rs: seq<Span>)
    ensures SpansFrom(buf, i, num) == Ok(rs) <==> |rs| == num && Chained(buf, i, rs)
    decreases num
  {
    if num > 0 {
      match LengthAt(buf, i)
      case None =>
      case Some(n) =>
        if rs != [] {
          SpansExact(buf, i + 4 + n, num - 1, rs[1..]);
          assert rs == [rs[0]] + rs[1..];
          if SpansFrom(buf, i, num) == Ok(rs) {
            var rest := SpansFrom(buf, i + 4 + n, num - 1).value;
            assert ([(i + 4, n)] + rest)[1..] == rest;
          }
        }
    }
  }

  /** The page a writer lays out for `es`. */
  function Page(es: seq<Bytes>): Bytes {
    if es == [] then [] else Le(|es[0]|, 4) + es[0] + Page(es[1..])
  }

  lemma EntryAt(buf: Bytes, i: nat, len: Bytes, e: Bytes, rest: Bytes)
    requires i <= |buf| && buf[i..] == len + e + rest
    requires |len| == 4 && FromLe(len) == |e|
    ensures LengthAt(buf, i) == Some(|e|)
    ensures buf[i + 4..i + 4 + |e|] == e && buf[i + 4 + |e|..] == rest
  {
    var tail := len + e + rest;
    assert tail[..4] == len && tail[4..4 + |e|] == e && tail[4 + |e|..] == rest;
    assert buf[i..i + 4] == buf[i..][..4];
    assert buf[i + 4..i + 4 + |e|] == buf[i..][4..4 + |e|];
    assert buf[i + 4 + |e|..] == buf[i..][4 + |e|..];
  }

  lemma LengthBack(n: nat)
    requires n < 0x1_0000_0000
    ensures FromLe(Le(n, 4)) == n
  {
    LeBack(n, 4);
    assert Pow256(4) == 0x1_0000_0000;
  }

  /** Are `rs` the spans of the entries `es`? */
  ghost predicate SpansOf(buf: Bytes, rs: seq<Span>, es: seq<Bytes>) {
    && |rs| == |es|
    && forall k | 0 <= k < |es| :: rs[k].0 + rs[k].1 <= |buf| && buf[rs[k].0..rs[k].0 + rs[k].1] == es[k]
  }

  /** The parser finds every entry of a page wherever the page starts, and needs nothing after it. */
  lemma {:induction false} PageParses(buf: Bytes, i: nat, es: seq<Bytes>, after: Bytes)
    requires forall k | 0 <= k < |es| :: |es[k]| < 0x1_0000_0000
    requires i <= |buf| && buf[i..] == Page(es) + after
    ensures SpansFrom(buf, i, |es|).Ok? && SpansOf(buf, SpansFrom(buf, i, |es|).value, es)
    decreases |es|
  {
    if es != [] {
      var e, rest := es[0], Page(es[1..]) + after;
      var len := Le(|e|, 4);
      assert Page(es) + after == len + e + rest;
      LengthBack(|e|);
      EntryAt(buf, i, len, e, rest);
      PageParses(buf, i + 4 + |e|, es[1..], after);
    }
  }

  /** A page cut short, or an entry that claims more than is left, is refused. */
  lemma {:induction false} ShortPageRefused(buf: Bytes, i: nat, num: nat)
    requires i <= |buf| < i + 4 * num
    ensures SpansFrom(buf, i, num).Err?
    decreases num
  {
    if LengthAt(buf, i).Some? {
      ShortPageRefused(buf, i + 4 + LengthAt(buf, i).value, num - 1);
    }
  }

  // ---- the union ----

  /** `ix` and `d` are inverse: no duplicates, and every id found. */
  ghost predicate Inverse(d: seq<Sym>, ix: map<Bytes, nat>) {
    && (forall v | v in ix :: ix[v] < |d| && d[ix[v]] == Intern(v))
    && (forall i | 0 <= i < |d| :: d[i].text in ix && ix[d[i].text] == i)
  }

  function Texts(d: seq<Sym>): seq<Bytes> {
    seq(|d|, i requires 0 <= i < |d| => d[i].text)
  }

  /** The union after the texts `ts`: inverse, and in first-seen order. */
  ghost predicate UnionOf(d: seq<Sym>, ix: map<Bytes, nat>, ts: seq<Bytes>) {
    Inverse(d, ix) && Texts(d) == FirstSeen(ts) && forall t :: t in ix <==> t in ts
  }

  method AddText(d: seq<Sym>, ix: map<Bytes, nat>, v: Bytes, ghost ts: seq<Bytes>)
    returns (d': seq<Sym>, ix': map<Bytes, nat>)
    requires UnionOf(d, ix, ts)
    ensures UnionOf(d', ix', ts + [v])
  {
    d', ix' := d, ix;
    assert (ts + [v])[..|ts|] == ts;
    if v !in ix {
      ix' := ix[v := |d|];
      d' := d + [Intern(v)];
      assert Texts(d') == Texts(d) + [v];
    }
  }

  /** A dictionary page as the merge sees it: any hash of its entries, and the entries. */
  datatype DictPage = DictPage(h: nat, entries: seq<Bytes>)

  /** Texts of the pages that are merged: a page whose hash was met before is skipped. */
  function Kept(pages: seq<DictPage>): seq<Bytes> {
    if pages == [] then []
    else
      var n := |pages| - 1;
      Kept(pages[..n]) + if Repeats(pages[..n], pages[n].h) then [] else pages[n].entries
  }

  /** No page before `i` has its hash. */
  ghost predicate FirstOfHash(pages: seq<DictPage>, i: nat)
    requires i < |pages|
  {
    forall k | 0 <= k < i :: pages[k].h != pages[i].h
  }

  /** Merged is what some page with a new hash holds ... */
  lemma {:induction false} KeptExact(pages: seq<DictPage>, t: Bytes)
    ensures t in Kept(pages) <==> exists i :: 0 <= i < |pages| && FirstOfHash(pages, i) && t in pages[i].entries
  {
    if pages != [] {
      var n := |pages| - 1;
      var before := pages[..n];
      KeptExact(before, t);
      assert forall i | 0 <= i < n :: FirstOfHash(before, i) <==> FirstOfHash(pages, i);
      assert Repeats(before, pages[n].h) <==> !FirstOfHash(pages, n) by {
        assert forall k | 0 <= k < n :: pages[k] in before;
      }
    }
  }

  /** ... page after page, each in its own order. */
  lemma {:induction false} KeptAt(pages: seq<DictPage>, n: nat, i: nat, k: nat)
    requires i < n <= |pages| && FirstOfHash(pages, i) && k < |pages[i].entries|
    ensures |Kept(pages[..i])| + |pages[i].entries| == |Kept(pages[..i + 1])| <= |Kept(pages[..n])|
    ensures Kept(pages[..n])[|Kept(pages[..i])| + k] == pages[i].entries[k]
    decreases n
  {
    assert pages[..n][..n - 1] == pages[..n - 1];
    if i < n - 1 {
      KeptAt(pages, n - 1, i, k);
    } else {
      assert !Repeats(pages[..i], pages[i].h);
    }
  }

  predicate Repeats(pages: seq<DictPage>, h: nat) {
    exists p | p in pages :: p.h == h
  }

  function AllTexts(pages: seq<DictPage>): seq<Bytes> {
    if pages == [] then [] else AllTexts(pages[..|pages| - 1]) + pages[|pages| - 1].entries
  }

  /** The pages up to the first that failed or is not of dictionary shape. */
  ghost function Pages(rs: seq<Result<DictPage>>): seq<DictPage>
    requires forall i | 0 <= i < |rs| :: rs[i].Ok?
  {
    seq(|rs|, i requires 0 <= i < |rs| => rs[i].value)
  }

  method MergePage(d: seq<Sym>, ix: map<Bytes, nat>, entries: seq<Bytes>, ghost ts: seq<Bytes>)
    returns (d': seq<Sym>, ix': map<Bytes, nat>)
    requires UnionOf(d, ix, ts)
    ensures UnionOf(d', ix', ts + entries)
  {
    d', ix' := d, ix;
    assert ts + entries[..0] == ts;
    for k := 0 to |entries|
      invariant UnionOf(d', ix', ts + entries[..k])
    {
      d', ix' := AddText(d', ix', entries[k], ts + entries[..k]);
      assert ts + entries[..k] + [entries[k]] == ts + entries[..k + 1];
    }
    assert entries[..|entries|] == entries;
  }

  /** What the plan promises: an inverse union, the empty symbol's code, and the narrowest width the codes fit. */
  ghost predicate GoodCodes(cd: Codes) {
    && Inverse(cd.d, cd.ix)
    && (if [] in cd.ix then cd.empty == cd.ix[[]] else cd.empty == |cd.d|)
    && Narrowest(cd.lt, Max(|cd.d|, cd.empty + 1))
  }

  predicate Usable(r: Result<DictPage>) {
    r.Ok? && r.value.entries != []
  }

  /** Page `i` is the first that cannot be merged. */
  ghost predicate FirstBad(rs: seq<Result<DictPage>>, i: int) {
    0 <= i < |rs| && !Usable(rs[i]) && forall k | 0 <= k < i :: Usable(rs[k])
  }

  /** The merge after the first `i` row groups. */
  ghost predicate Merged(rs: seq<Result<DictPage>>, i: nat, d: seq<Sym>, ix: map<Bytes, nat>, seen: set<nat>)
    requires i <= |rs| && forall k | 0 <= k < i :: rs[k].Ok?
  {
    && UnionOf(d, ix, Kept(Pages(rs[..i])))
    && forall h :: h in seen <==> Repeats(Pages(rs[..i]), h)
  }

  /** Merge one page, unless one with its hash was merged before. */
  method MergeNext(rs: seq<Result<DictPage>>, i: nat, d: seq<Sym>, ix: map<Bytes, nat>, seen: set<nat>)
    returns (d': seq<Sym>, ix': map<Bytes, nat>, seen': set<nat>)
    requires i < |rs| && forall k | 0 <= k <= i :: rs[k].Ok?
    requires Merged(rs, i, d, ix, seen)
    ensures Merged(rs, i + 1, d', ix', seen')
  {
    var p := rs[i].value;
    ghost var pages := Pages(rs[..i]);
    assert Pages(rs[..i + 1]) == pages + [p];
    KeptMore(pages, p);
    RepeatsMore(pages, p);
    d', ix' := d, ix;
    if p.h !in seen {
      d', ix' := MergePage(d, ix, p.entries, Kept(pages));
    } else {
      assert Kept(pages) + [] == Kept(pages);
    }
    seen' := seen + {p.h};
  }

  /**
   `codes_plan` over the pages of a window, in row-group order.  `mayNull[i]` is
   what statistics say of row group i.  None when some page is not a dictionary.
   */
  method Plan(rs: seq<Result<DictPage>>, mayNull: seq<bool>) returns (r: Result<Option<Codes>>)
    requires |rs| == |mayNull|
    ensures r.Ok? && r.value.Some? ==>
              && (forall i | 0 <= i < |rs| :: Usable(rs[i]))
              && GoodCodes(r.value.value)
              && (true in mayNull ==> [] in r.value.value.ix)
              && Texts(r.value.value.d) == FirstSeen(Kept(Pages(rs)) + if true in mayNull then [[]] else [])
    ensures |rs| > 0 && (forall i | 0 <= i < |rs| :: Usable(rs[i])) ==> r.Ok? && r.value.Some?
    ensures r.Err? <==> exists i :: FirstBad(rs, i) && rs[i].Err?
  {
    if |rs| == 0 {
      return Ok(None);
    }
    var d: seq<Sym> := [];
    var ix: map<Bytes, nat> := map[];
    var nulls := false;
    var seen: set<nat> := {};
    for i := 0 to |rs|
      invariant forall k | 0 <= k < i :: Usable(rs[k])
      invariant Merged(rs, i, d, ix, seen)
      invariant nulls <==> true in mayNull[..i]
    {
      if rs[i].Err? {
        assert FirstBad(rs, i);
        return Err(rs[i].error);
      }
      if rs[i].value.entries == [] {
        assert FirstBad(rs, i);
        return Ok(None);
      }
      d, ix, seen := MergeNext(rs, i, d, ix, seen);
      assert mayNull[..i + 1] == mayNull[..i] + [mayNull[i]];
      nulls := nulls || mayNull[i];
    }
    assert rs[..|rs|] == rs && mayNull[..|rs|] == mayNull;
    var cd := Finish(d, ix, nulls, Kept(Pages(rs)));
    r := Ok(Some(cd));
  }

  /** The empty symbol joins the union when a null may occur and it is not there yet. */
  method Finish(d: seq<Sym>, ix: map<Bytes, nat>, nulls: bool, ghost ts: seq<Bytes>) returns (cd: Codes)
    requires UnionOf(d, ix, ts)
    ensures GoodCodes(cd) && (nulls ==> [] in cd.ix)
    ensures Texts(cd.d) == FirstSeen(ts + if nulls then [[]] else [])
  {
    var d', ix' := d, ix;
    var empty := |d|;
    if [] in ix {
      empty := ix[[]];
    } else if nulls {
      d', ix' := d + [Empty()], ix[[] := empty];
    }
    if nulls {
      assert (ts + [[]])[..|ts|] == ts;
      assert Texts(d') == Texts(d) + (if [] in ts then [] else [[]]);
    } else {
      assert ts + [] == ts;
    }
    WidthExact(Max(|d'|, empty + 1));
    cd := Codes(d', ix', empty, WidthOf(Max(|d'|, empty + 1)));
  }

  lemma KeptMore(pages: seq<DictPage>, p: DictPage)
    ensures Kept(pages + [p]) == Kept(pages) + if Repeats(pages, p.h) then [] else p.entries
  {
    assert (pages + [p])[..|pages|] == pages;
  }

  lemma RepeatsMore(pages: seq<DictPage>, p: DictPage)
    ensures forall h :: Repeats(pages + [p], h) <==> Repeats(pages, h) || h == p.h
  {
    assert p in pages + [p];
    forall q | q in pages ensures q in pages + [p] {}
  }
}
