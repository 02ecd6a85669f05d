/**
 The directory a stream builds: one file a column and a manifest, written through
 handles of their own.  Two columns whose names lead to one directory entry share a
 file, and the model lets them.
 */
module SplayStream {
  import opened Common
  import opened Endian
  import opened Handles
  import opened Splay

  // ---- what is streamed ----

  /** A record batch: its rows, and each column as the converter left it. */
  datatype Batch = Batch(rows: nat, cols: seq<Result<Column>>)

  /** Does the batch hold `|lts|` columns of those types, wherever conversion succeeds? */
  ghost predicate Agrees(lts: seq<nat>, b: Batch) {
    && |b.cols| == |lts|
    && forall c | 0 <= c < |lts| && b.cols[c].Ok? :: Shaped(lts[c], b.cols[c].value) && Count(b.cols[c].value) == b.rows
  }

  ghost predicate AllAgree(lts: seq<nat>, bs: seq<Batch>) {
    forall k | 0 <= k < |bs| :: Agrees(lts, bs[k])
  }

  predicate Converted(b: Batch) {
    forall c | 0 <= c < |b.cols| :: b.cols[c].Ok?
  }

  ghost predicate AllConverted(bs: seq<Batch>) {
    forall k | 0 <= k < |bs| :: Converted(bs[k])
  }

  /** Type tags a stream can meet. */
  predicate LType(lt: nat) {
    lt in {1, 4, 5, 6, 7, 8, 9, KS, 12, 14, 16, 19}
  }

  ghost predicate LTypes(lts: seq<nat>) {
    forall c | 0 <= c < |lts| :: LType(lts[c])
  }

  function Empty(lt: nat): Column {
    if lt == KS then Syms([]) else Fixed([])
  }

  /** Column `c` of a batch. */
  function Chunk(lt: nat, b: Batch, c: nat): Column {
    if c < |b.cols| && b.cols[c].Ok? then b.cols[c].value else Empty(lt)
  }

  /** Column `c` of all batches, end to end. */
  function Whole(lt: nat, bs: seq<Batch>, c: nat): Column {
    if bs == [] then Empty(lt)
    else Join(Whole(lt, bs[..|bs| - 1], c), Chunk(lt, bs[|bs| - 1], c))
  }

  function Rows(bs: seq<Batch>): nat {
    if bs == [] then 0 else Rows(bs[..|bs| - 1]) + bs[|bs| - 1].rows
  }

  lemma {:induction false} WholeCounts(lts: seq<nat>, bs: seq<Batch>, c: nat)
    requires c < |lts| && LTypes(lts) && AllAgree(lts, bs) && AllConverted(bs)
    ensures Shaped(lts[c], Whole(lts[c], bs, c)) && Count(Whole(lts[c], bs, c)) == Rows(bs)
  {
    if bs != [] {
      var n := |bs| - 1;
      assert Agrees(lts, bs[n]) && Converted(bs[n]);
      WholeCounts(lts, bs[..n], c);
      PayloadJoins(lts[c], Whole(lts[c], bs[..n], c), Chunk(lts[c], bs[n], c));
    }
  }

  lemma WholeGrows(lts: seq<nat>, bs: seq<Batch>, b: Batch, c: nat)
    requires c < |lts| && LTypes(lts) && AllAgree(lts, bs + [b]) && AllConverted(bs + [b])
    ensures Payload(lts[c], Whole(lts[c], bs + [b], c)) ==
            Payload(lts[c], Whole(lts[c], bs, c)) + Payload(lts[c], Chunk(lts[c], b, c))
  {
    assert (bs + [b])[..|bs|] == bs;
    assert Agrees(lts, (bs + [b])[|bs|]) && Converted((bs + [b])[|bs|]);
    assert AllAgree(lts, bs) && AllConverted(bs) by {
      assert forall k | 0 <= k < |bs| :: (bs + [b])[k] == bs[k];
    }
    WholeCounts(lts, bs, c);
    PayloadJoins(lts[c], Whole(lts[c], bs, c), Chunk(lts[c], b, c));
  }

  // ---- the manifest ----

  /** `.d` */
  function DotD(): Bytes {
    [46, 100]
  }

  /** ... in the directory being built. */
  function ManifestAt(): Entry {
    Beside(DotD())
  }

  function Raw(names: seq<Bytes>): Bytes {
    if names == [] then [] else Raw(names[..|names| - 1]) + (names[|names| - 1] + [0])
  }

  /** The symbol vector of the column names. */
  function Manifest(names: seq<Bytes>): Bytes {
    OneShot(KS, Syms(names))
  }

  /** Without a NUL in a name the bytes written one name after another are that vector's. */
  lemma {:induction false} RawIsPayload(names: seq<Bytes>)
    requires forall i | 0 <= i < |names| :: 0 !in names[i]
    ensures Raw(names) == SymPayload(names)
  {
    if names != [] {
      var n := |names| - 1;
      RawIsPayload(names[..n]);
      SymsJoin(names[..n], [names[n]]);
      assert names == names[..n] + [names[n]];
      CTextExact(names[n]);
      assert SymPayload([names[n]]) == names[n] + [0] + SymPayload([]);
    }
  }

  // ---- the steps of a stream ----

  /** The manifest written; nothing more goes through its handle. */
  function Started(world: map<Entry, Bytes>, names: seq<Bytes>): (fs: Fs)
    ensures fs.hs == []
  {
    Closed(Put(Created(Fs(world, []), ManifestAt()), 0, SymHead(|names|) + Raw(names)))
  }

  /** The header each column file starts with, its count zero. */
  function Heads(lts: seq<nat>): (heads: seq<Bytes>)
    ensures |heads| == |lts|
  {
    seq(|lts|, c requires 0 <= c < |lts| => Head(lts[c], 0))
  }

  function Chunks(lts: seq<nat>, b: Batch): (chunks: seq<Bytes>)
    ensures |chunks| == |lts|
  {
    seq(|lts|, c requires 0 <= c < |lts| => Payload(lts[c], Chunk(lts[c], b, c)))
  }

  function Rounds(lts: seq<nat>, bs: seq<Batch>): (rounds: seq<seq<Bytes>>)
    ensures |rounds| == |bs| && Even(rounds, |lts|)
  {
    seq(|bs|, k requires 0 <= k < |bs| => Chunks(lts, bs[k]))
  }

  function Slots(lts: seq<nat>, n: nat): (slots: seq<Slot>)
    ensures |slots| == |lts|
  {
    seq(|lts|, c requires 0 <= c < |lts| => CountSlot(lts[c] == KS, n))
  }

  /** The files after a whole stream, before the rename. */
  function Streamed(world: map<Entry, Bytes>, names: seq<Bytes>, at: seq<Entry>, lts: seq<nat>, bs: seq<Batch>): Fs
    requires |at| == |lts|
  {
    Written(Started(world, names), at, Heads(lts), Rounds(lts, bs), Slots(lts, Rows(bs)))
  }

  // ---- when a stream is right ----

  /** Every column's file is the one-shot serialisation of the column, and so is the manifest. */
  ghost predicate Right(files: map<Entry, Bytes>, names: seq<Bytes>, at: seq<Entry>, lts: seq<nat>, bs: seq<Batch>)
    requires |at| == |lts|
  {
    && ManifestAt() in files && files[ManifestAt()] == Manifest(names)
    && forall c | 0 <= c < |at| :: at[c] in files && files[at[c]] == OneShot(lts[c], Whole(lts[c], bs, c))
  }

  /** Columns that share an entry, with each other or with the manifest, have the same bytes to put there. */
  ghost predicate NoClash(names: seq<Bytes>, at: seq<Entry>, lts: seq<nat>, bs: seq<Batch>)
    requires |at| == |lts|
  {
    && (forall c, d | 0 <= c < d < |at| && at[c] == at[d] ::
          OneShot(lts[c], Whole(lts[c], bs, c)) == OneShot(lts[d], Whole(lts[d], bs, d)))
    && (forall c | 0 <= c < |at| && at[c] == ManifestAt() :: OneShot(lts[c], Whole(lts[c], bs, c)) == Manifest(names))
  }

  lemma RightMeansNoClash(files: map<Entry, Bytes>, names: seq<Bytes>, at: seq<Entry>, lts: seq<nat>, bs: seq<Batch>)
    requires |at| == |lts| && Right(files, names, at, lts, bs)
    ensures NoClash(names, at, lts, bs)
  {}

  /** Column `c`'s file before its count is patched. */
  function Unpatched(lts: seq<nat>, bs: seq<Batch>, c: nat): Bytes
    requires c < |lts|
  {
    Head(lts[c], 0) + Payload(lts[c], Whole(lts[c], bs, c))
  }

  /** Columns that share an entry agree in type and in bytes. */
  ghost predicate Alike(at: seq<Entry>, lts: seq<nat>, bs: seq<Batch>)
    requires |at| == |lts|
  {
    forall c, d | 0 <= c < |at| && 0 <= d < |at| && at[c] == at[d] ::
      lts[c] == lts[d] && Payload(lts[c], Whole(lts[c], bs, c)) == Payload(lts[d], Whole(lts[d], bs, d))
  }

  /** A file tells its type, and with it its contents. */
  lemma OneShotTells(lt: nat, a: Column, mt: nat, b: Column)
    requires Shaped(lt, a) && Shaped(mt, b) && Count(a) == Count(b)
    requires OneShot(lt, a) == OneShot(mt, b)
    ensures lt == mt && Payload(lt, a) == Payload(mt, b)
  {
    var x := OneShot(lt, a);
    HeadTells(lt, Count(a), Payload(lt, a), mt, Count(b), Payload(mt, b));
    assert x[|Head(lt, Count(a))|..] == Payload(lt, a);
    assert x[|Head(mt, Count(b))|..] == Payload(mt, b);
  }

  lemma HeadTells(lt: nat, m: nat, p: Bytes, mt: nat, n: nat, q: Bytes)
    requires lt < 0x8000 && mt < 0x8000 && Head(lt, m) + p == Head(mt, n) + q
    ensures lt == mt
  {
    PowersOf256();
    LeExact(lt, 2);
    LeExact(mt, 2);
    if lt != KS {
      FixedSlots(lt, m, p);
    } else {
      SymSlots(m, p);
    }
    if mt != KS {
      FixedSlots(mt, n, q);
    } else {
      SymSlots(n, q);
    }
    var x := Head(lt, m) + p;
    assert x[0] == x[..2][0];
  }

  lemma NoClashMeansAlike(names: seq<Bytes>, at: seq<Entry>, lts: seq<nat>, bs: seq<Batch>)
    requires |at| == |lts| && LTypes(lts) && AllAgree(lts, bs) && AllConverted(bs)
    requires NoClash(names, at, lts, bs)
    ensures Alike(at, lts, bs)
  {
    forall c, d | 0 <= c < |at| && 0 <= d < |at| && at[c] == at[d]
      ensures lts[c] == lts[d] && Payload(lts[c], Whole(lts[c], bs, c)) == Payload(lts[d], Whole(lts[d], bs, d))
    {
      WholeCounts(lts, bs, c);
      WholeCounts(lts, bs, d);
      if c != d {
        OneShotTells(lts[c], Whole(lts[c], bs, c), lts[d], Whole(lts[d], bs, d));
      }
    }
  }

  // ---- main results ----

  /** Column `c`'s bytes after one more batch. */
  lemma RoundGrows(lts: seq<nat>, bs: seq<Batch>, k: nat, c: nat)
    requires c < |lts| && k < |bs| && LTypes(lts) && AllAgree(lts, bs) && AllConverted(bs)
    ensures Payload(lts[c], Whole(lts[c], bs[..k + 1], c)) == Payload(lts[c], Whole(lts[c], bs[..k], c)) + Rounds(lts, bs)[k][c]
  {
    assert bs[..k] + [bs[k]] == bs[..k + 1];
    WholeGrows(lts, bs[..k], bs[k], c);
  }

  lemma Regroup(a: Bytes, b: Bytes, c: Bytes)
    ensures a + (b + c) == a + b + c
  {}

  lemma {:induction false} FilledIsWhole(heads: seq<Bytes>, lts: seq<nat>, bs: seq<Batch>, k: nat, c: nat)
    requires c < |lts| == |heads| && k <= |bs| && LTypes(lts) && AllAgree(lts, bs) && AllConverted(bs)
    ensures Filled(heads, Rounds(lts, bs), k, c) == heads[c] + Payload(lts[c], Whole(lts[c], bs[..k], c))
  {
    if k > 0 {
      FilledIsWhole(heads, lts, bs, k - 1, c);
      RoundGrows(lts, bs, k - 1, c);
      Regroup(heads[c], Payload(lts[c], Whole(lts[c], bs[..k - 1], c)), Rounds(lts, bs)[k - 1][c]);
    } else {
      assert Payload(lts[c], Whole(lts[c], bs[..0], c)) == [];
    }
  }

  function Unpatcheds(lts: seq<nat>, bs: seq<Batch>): (zs: seq<Bytes>)
    ensures |zs| == |lts|
  {
    seq(|lts|, c requires 0 <= c < |lts| => Unpatched(lts, bs, c))
  }

  function Wholes(lts: seq<nat>, bs: seq<Batch>): (ws: seq<Bytes>)
    ensures |ws| == |lts|
  {
    seq(|lts|, c requires 0 <= c < |lts| => OneShot(lts[c], Whole(lts[c], bs, c)))
  }

  lemma ZsAreUnpatched(lts: seq<nat>, bs: seq<Batch>)
    requires LTypes(lts) && AllAgree(lts, bs) && AllConverted(bs)
    ensures Zs(Heads(lts), Rounds(lts, bs)) == Unpatcheds(lts, bs)
  {
    assert bs[..|bs|] == bs;
    forall c | 0 <= c < |lts| {
      FilledIsWhole(Heads(lts), lts, bs, |bs|, c);
    }
  }

  /** Patched with the rows of the stream, each column's file is its one-shot serialisation. */
  lemma CountsPatch(lts: seq<nat>, bs: seq<Batch>)
    requires LTypes(lts) && AllAgree(lts, bs) && AllConverted(bs)
    ensures PatchesTo(Slots(lts, Rows(bs)), Unpatcheds(lts, bs), Wholes(lts, bs))
  {
    var slots, zs, ws := Slots(lts, Rows(bs)), Unpatcheds(lts, bs), Wholes(lts, bs);
    forall c | 0 <= c < |lts|
      ensures Over(zs[c], slots[c].p, slots[c].b) == ws[c] == Over(ws[c], slots[c].p, slots[c].b)
    {
      WholeCounts(lts, bs, c);
      var p := Payload(lts[c], Whole(lts[c], bs, c));
      PatchedIsWhole(lts[c], 0, Rows(bs), p);
      PatchedIsWhole(lts[c], Rows(bs), Rows(bs), p);
    }
  }

  lemma AlikeMeansSame(at: seq<Entry>, lts: seq<nat>, bs: seq<Batch>)
    requires |at| == |lts| && LTypes(lts) && AllAgree(lts, bs) && AllConverted(bs) && Alike(at, lts, bs)
    ensures SameZs(at, Heads(lts)) && SameZs(at, Unpatcheds(lts, bs)) && SameZs(at, Wholes(lts, bs))
  {
    forall c, d | 0 <= c < |at| && 0 <= d < |at| && at[c] == at[d]
      ensures Wholes(lts, bs)[c] == Wholes(lts, bs)[d]
    {
      WholeCounts(lts, bs, c);
      WholeCounts(lts, bs, d);
    }
  }

  lemma StreamedColumns(world: map<Entry, Bytes>, names: seq<Bytes>, at: seq<Entry>, lts: seq<nat>, bs: seq<Batch>, c: nat)
    requires |at| == |lts| && LTypes(lts) && AllAgree(lts, bs) && AllConverted(bs) && Alike(at, lts, bs) && c < |at|
    ensures at[c] in Streamed(world, names, at, lts, bs).files
    ensures Streamed(world, names, at, lts, bs).files[at[c]] == OneShot(lts[c], Whole(lts[c], bs, c))
  {
    ZsAreUnpatched(lts, bs);
    CountsPatch(lts, bs);
    AlikeMeansSame(at, lts, bs);
    WrittenRight(Started(world, names), at, Heads(lts), Rounds(lts, bs), Slots(lts, Rows(bs)), Wholes(lts, bs));
    assert Wholes(lts, bs)[c] == OneShot(lts[c], Whole(lts[c], bs, c));
  }

  /** The files are those of `was`, the manifest and the column files, and of these the first alone are as they were. */
  ghost predicate Entire(was: map<Entry, Bytes>, files: map<Entry, Bytes>, at: seq<Entry>) {
    && (forall e :: e in files <==> e in was || e == ManifestAt() || e in at)
    && (forall e | e in was && e != ManifestAt() && e !in at :: files[e] == was[e])
  }

  lemma StartsWithManifest(world: map<Entry, Bytes>, names: seq<Bytes>)
    ensures Started(world, names) == Fs(world[ManifestAt() := SymHead(|names|) + Raw(names)], [])
  {
    FreshFile(world, ManifestAt(), SymHead(|names|) + Raw(names));
  }

  lemma ManifestIsWhole(names: seq<Bytes>)
    requires forall i | 0 <= i < |names| :: 0 !in names[i]
    ensures SymHead(|names|) + Raw(names) == Manifest(names)
  {
    RawIsPayload(names);
  }

  /** Entries over a world with the manifest are the manifest's, besides the world's. */
  lemma EntriesAreEntire(world: map<Entry, Bytes>, m: Bytes, fs: Fs, at: seq<Entry>)
    requires Entries(world[ManifestAt() := m], fs, at)
    ensures Entire(world, fs.files, at) && (ManifestAt() !in at ==> fs.files[ManifestAt()] == m)
  {
    var was := world[ManifestAt() := m];
    assert ManifestAt() in was;
    assert forall e | e in world && e != ManifestAt() :: e in was && was[e] == world[e];
  }

  lemma StreamedEntries(world: map<Entry, Bytes>, names: seq<Bytes>, at: seq<Entry>, lts: seq<nat>, bs: seq<Batch>)
    requires |at| == |lts|
    ensures var files := Streamed(world, names, at, lts, bs).files;
            && Entire(world, files, at)
            && (ManifestAt() !in at ==> files[ManifestAt()] == SymHead(|names|) + Raw(names))
  {
    StartsWithManifest(world, names);
    WrittenEntries(Started(world, names), at, Heads(lts), Rounds(lts, bs), Slots(lts, Rows(bs)));
    EntriesAreEntire(world, SymHead(|names|) + Raw(names), Streamed(world, names, at, lts, bs), at);
  }

  /** Files that are shared by columns with the same bytes come out right all the same. */
  lemma NoClashMeansRight(world: map<Entry, Bytes>, names: seq<Bytes>, at: seq<Entry>, lts: seq<nat>, bs: seq<Batch>)
    requires |at| == |lts| && LTypes(lts) && AllAgree(lts, bs) && AllConverted(bs)
    requires forall i | 0 <= i < |names| :: 0 !in names[i]
    requires NoClash(names, at, lts, bs)
    ensures Right(Streamed(world, names, at, lts, bs).files, names, at, lts, bs)
  {
    NoClashMeansAlike(names, at, lts, bs);
    StreamedEntries(world, names, at, lts, bs);
    ManifestIsWhole(names);
    var files := Streamed(world, names, at, lts, bs).files;
    forall c | 0 <= c < |at|
      ensures at[c] in files && files[at[c]] == OneShot(lts[c], Whole(lts[c], bs, c))
    {
      StreamedColumns(world, names, at, lts, bs, c);
    }
    if ManifestAt() in at {
      var c :| 0 <= c < |at| && at[c] == ManifestAt();
    }
  }

  /** One row of one value a column: `v` in column `j`, zero or the empty text in the others. */
  function OneRow(lts: seq<nat>, j: nat): Batch {
    Batch(1, seq(|lts|, c requires 0 <= c < |lts| =>
      Ok(if lts[c] == KS then Syms([if c == j then [1] else []]) else Fixed([if c == j then 1 else 0]))))
  }

  lemma OneRowAgrees(lts: seq<nat>, j: nat)
    requires LTypes(lts)
    ensures Agrees(lts, OneRow(lts, j)) && Converted(OneRow(lts, j))
  {
    forall c | 0 <= c < |lts|
      ensures Pow256(Width(lts[c])) >= 256
    {
      assert Pow256(Width(lts[c])) == 256 * Pow256(Width(lts[c]) - 1);
    }
  }

  lemma TextsTell()
    ensures SymPayload([[]])[0] == 0 && SymPayload([[1]])[0] == 1
  {
    assert SymPayload([[]]) == CText([]) + [0] + SymPayload([]);
    assert SymPayload([[1]]) == CText([1]) + [0] + SymPayload([]);
    assert CText([1]) == [1] + CText([]);
  }

  lemma ValuesTell(w: nat)
    requires w > 0
    ensures FixedPayload(w, [0])[0] == 0 && FixedPayload(w, [1])[0] == 1
  {
    assert Le(0, w)[0] == 0 && Le(1, w)[0] == 1;
    assert FixedPayload(w, [0]) == Le(0, w) + FixedPayload(w, []);
    assert FixedPayload(w, [1]) == Le(1, w) + FixedPayload(w, []);
  }

  lemma SameTail(h: Bytes, p: Bytes, q: Bytes)
    requires h + p == h + q
    ensures p == q
  {
    assert (h + p)[|h|..] == p && (h + q)[|h|..] == q;
  }

  lemma OneRowTells(lt: nat, a: Column, b: Column)
    requires LType(lt)
    requires if lt == KS then a == Syms([[]]) && b == Syms([[1]]) else a == Fixed([0]) && b == Fixed([1])
    ensures OneShot(lt, a) != OneShot(lt, b)
  {
    if lt == KS {
      TextsTell();
    } else {
      ValuesTell(Width(lt));
    }
    assert Payload(lt, a) != Payload(lt, b);
    if OneShot(lt, a) == OneShot(lt, b) {
      SameTail(Head(lt, 1), Payload(lt, a), Payload(lt, b));
    }
  }

  ghost predicate Streamable(lts: seq<nat>, bs: seq<Batch>) {
    AllAgree(lts, bs) && AllConverted(bs)
  }

  /** Two columns can be told apart by what they hold. */
  lemma ColumnsTell(lts: seq<nat>, i: nat, j: nat) returns (bs: seq<Batch>)
    requires LTypes(lts) && i < j < |lts|
    ensures Streamable(lts, bs) && OneShot(lts[i], Whole(lts[i], bs, i)) != OneShot(lts[j], Whole(lts[j], bs, j))
    ensures lts[i] == lts[j] ==> bs == [OneRow(lts, j)]
  {
    if lts[i] != lts[j] {
      bs := [];
      if OneShot(lts[i], Empty(lts[i])) == OneShot(lts[j], Empty(lts[j])) {
        OneShotTells(lts[i], Empty(lts[i]), lts[j], Empty(lts[j]));
      }
    } else {
      bs := [OneRow(lts, j)];
      OneRowAgrees(lts, j);
      WholeOfOne(lts, OneRow(lts, j), i);
      WholeOfOne(lts, OneRow(lts, j), j);
      OneRowTells(lts[i], Whole(lts[i], bs, i), Whole(lts[j], bs, j));
    }
  }

  /** A column can hold something else than it does when empty. */
  lemma RowTells(lts: seq<nat>, c: nat)
    requires LTypes(lts) && c < |lts|
    ensures Streamable(lts, []) && Streamable(lts, [OneRow(lts, c)])
    ensures OneShot(lts[c], Whole(lts[c], [], c)) != OneShot(lts[c], Whole(lts[c], [OneRow(lts, c)], c))
  {
    OneRowAgrees(lts, c);
    WholeOfOne(lts, OneRow(lts, c), c);
    var a, b := OneShot(lts[c], Empty(lts[c])), OneShot(lts[c], Chunk(lts[c], OneRow(lts, c), c));
    PayloadNotEmpty(lts[c], Chunk(lts[c], OneRow(lts, c), c));
    assert |a| < |b|;
  }

  lemma PayloadNotEmpty(lt: nat, c: Column)
    requires LType(lt) && Shaped(lt, c) && Count(c) == 1
    ensures |Payload(lt, c)| > 0 && Payload(lt, Empty(lt)) == [] && |Head(lt, 1)| == |Head(lt, 0)|
  {}

  lemma WholeOfOne(lts: seq<nat>, b: Batch, c: nat)
    requires c < |lts| && LTypes(lts) && Agrees(lts, b) && Converted(b)
    ensures Whole(lts[c], [b], c) == Chunk(lts[c], b, c)
  {
    assert [b][..0] == [];
    assert Whole(lts[c], [b], c) == Join(Empty(lts[c]), Chunk(lts[c], b, c));
    match Chunk(lts[c], b, c)
    case Fixed(x) => assert [] + x == x;
    case Syms(x) => assert [] + x == x;
  }

  /** An empty column is not the manifest. */
  lemma ManifestTells(names: seq<Bytes>, lts: seq<nat>, c: nat)
    requires |lts| == |names| && LTypes(lts) && c < |lts|
    ensures OneShot(lts[c], Whole(lts[c], [], c)) != Manifest(names)
  {
    if lts[c] == KS {
      assert SymPayload(names) == CText(names[0]) + [0] + SymPayload(names[1..]);
      assert |Manifest(names)| > 8 == |OneShot(KS, Syms([]))|;
    } else {
      SymSlots(|names|, SymPayload(names));
      FixedSlots(lts[c], 0, []);
      assert Manifest(names)[0] == Manifest(names)[..2][0];
      assert OneShot(lts[c], Fixed([])) == FixedHead(lts[c], 0) + [];
    }
  }

  // ---- the count check ----

  /** Rows a reader may deliver of row groups that declare `ns`: no more than declared, and any number when the count is negative. */
  ghost predicate Deliverable(ns: seq<int>, got: seq<int>) {
    |got| == |ns| && forall g | 0 <= g < |ns| :: 0 <= got[g] && (ns[g] >= 0 ==> got[g] <= ns[g])
  }

  lemma {:induction false} SumBound(ns: seq<int>, got: seq<int>)
    requires |ns| == |got| && forall g | 0 <= g < |ns| :: got[g] <= ns[g]
    ensures Sum(got) <= Sum(ns)
  {
    if ns != [] {
      SumBound(ns[..|ns| - 1], got[..|ns| - 1]);
    }
  }

  /** A sum is no less than one of its parts, when none is negative. */
  lemma {:induction false} SumPart(got: seq<int>, g: nat)
    requires g < |got| && forall h | 0 <= h < |got| :: got[h] >= 0
    ensures Sum(got) >= got[g]
  {
    var n := |got| - 1;
    if g < n {
      SumPart(got[..n], g);
    } else {
      SumBound(got[..n], seq(n, h => 0));
      NotNegative(got[..n]);
    }
  }

  lemma {:induction false} NotNegative(got: seq<int>)
    requires forall h | 0 <= h < |got| :: got[h] >= 0
    ensures Sum(got) >= 0
  {
    if got != [] {
      NotNegative(got[..|got| - 1]);
    }
  }

  const MOST_ROWS: int := 0x7FFF_FFFF

  /** A stream that passes the check stays below 2^31 rows, whatever is delivered, exactly when no count is negative. */
  lemma CountCheckExact(ns: seq<int>)
    ensures (forall got | Deliverable(ns, got) :: Sum(got) <= 0x7FFF_FFFF) <==>
            Sum(ns) <= 0x7FFF_FFFF && forall g | 0 <= g < |ns| :: ns[g] >= 0
  {
    if forall g | 0 <= g < |ns| :: ns[g] >= 0 {
      forall got | Deliverable(ns, got)
        ensures Sum(got) <= Sum(ns)
      {
        SumBound(ns, got);
      }
      assert Deliverable(ns, ns);
    } else {
      var g :| 0 <= g < |ns| && ns[g] < 0;
      var got := seq(|ns|, h => if h == g then MOST_ROWS + 1 else 0);
      assert Deliverable(ns, got);
      SumPart(got, g);
    }
  }

  /** One row group of count -1 passes the check, and nothing bounds what it may deliver. */
  lemma NegativeCountSlipsThrough(n: nat)
    ensures Sum([-1]) <= 0x7FFF_FFFF && Deliverable([-1], [n]) && Sum([n]) == n
  {
    assert [-1][..0] == [] && [n][..0] == [];
  }

  // ---- the stream itself ----

  lemma RawMore(names: seq<Bytes>, i: nat)
    requires i < |names|
    ensures Raw(names[..i + 1]) == Raw(names[..i]) + (names[i] + [0])
  {
    assert names[..i + 1][..i] == names[..i];
  }

  method WriteManifest(dir: Dir, names: seq<Bytes>)
    requires dir.fs.hs == []
    modifies dir
    ensures dir.fs == Started(old(dir.fs.files), names)
  {
    var h := dir.Create(ManifestAt());
    ghost var fs := dir.fs;
    HdrSyms(dir, h, |names|);
    assert names[..0] == [];
    for i := 0 to |names|
      invariant Open(dir.fs, 0) && dir.fs == Put(Put(fs, 0, SymHead(|names|)), 0, Raw(names[..i]))
    {
      ghost var was := Put(fs, 0, SymHead(|names|));
      dir.WriteAll(0, names[i]);
      dir.WriteAll(0, [0]);
      PutPut(Put(was, 0, Raw(names[..i])), 0, names[i], [0]);
      PutPut(was, 0, Raw(names[..i]), names[i] + [0]);
      RawMore(names, i);
    }
    assert names[..|names|] == names;
    PutPut(fs, 0, SymHead(|names|), Raw(names));
    dir.Close();
  }

  /** One more column file, created and headed. */
  method OpenNext(dir: Dir, ghost fs: Fs, at: seq<Entry>, lts: seq<nat>, c: nat)
    requires |dir.fs.hs| == c < |at| <= |lts| && dir.fs == Opened(fs, at, Heads(lts), c)
    modifies dir
    ensures |dir.fs.hs| == c + 1 && dir.fs == Opened(fs, at, Heads(lts), c + 1)
  {
    var h := dir.Create(at[c]);
    if lts[c] == KS {
      HdrSyms(dir, h, 0);
    } else {
      HdrFixed(dir, h, lts[c]);
    }
  }

  /** One column file created and headed, if the system takes its name. */
  method OpenColumn(dir: Dir, ghost fs: Fs, at: seq<Entry>, e: Option<Entry>, lts: seq<nat>) returns (ok: bool, at': seq<Entry>)
    requires |dir.fs.hs| == |at| < |lts| && dir.fs == Opened(fs, at, Heads(lts), |at|)
    modifies dir
    ensures ok <==> e.Some?
    ensures at' == if ok then at + [e.value] else at
    ensures |dir.fs.hs| == |at'| && dir.fs == Opened(fs, at', Heads(lts), |at'|)
  {
    if e.None? {
      return false, at;
    }
    at' := at + [e.value];
    OpenedPrefix(fs, at, at', Heads(lts), |at|);
    OpenNext(dir, fs, at', lts, |at|);
    ok := true;
  }

  /** Opening the first `m` columns does not depend on the others. */
  lemma {:induction false} OpenedPrefix(fs: Fs, a: seq<Entry>, b: seq<Entry>, heads: seq<Bytes>, m: nat)
    requires m <= |heads| && m <= |a| && a <= b
    ensures Opened(fs, a, heads, m) == Opened(fs, b, heads, m)
  {
    if m > 0 {
      OpenedPrefix(fs, a, b, heads, m - 1);
    }
  }

  /** The entries led to before the first refusal. */
  function Taken(made: seq<Option<Entry>>): (at: seq<Entry>)
    ensures |at| <= |made| && forall c | 0 <= c < |at| :: made[c] == Some(at[c])
    ensures |at| < |made| ==> made[|at|].None?
    decreases |made|
  {
    if made == [] || made[0].None? then [] else [made[0].value] + Taken(made[1..])
  }

  /** Column files created one after another, each with its header, up to the first name the system refuses. */
  method OpenColumns(dir: Dir, made: seq<Option<Entry>>, lts: seq<nat>) returns (at: seq<Entry>)
    requires |made| == |lts| && dir.fs.hs == []
    modifies dir
    ensures at == Taken(made) && dir.fs == Opened(old(dir.fs), at, Heads(lts), |at|)
  {
    ghost var fs := dir.fs;
    at := [];
    for c := 0 to |made|
      invariant |at| == c && |dir.fs.hs| == c && dir.fs == Opened(fs, at, Heads(lts), c)
      invariant forall i | 0 <= i < c :: made[i] == Some(at[i])
    {
      var ok;
      ok, at := OpenColumn(dir, fs, at, made[c], lts);
      if !ok {
        TakenIs(made, at);
        return;
      }
    }
    TakenIs(made, at);
  }

  lemma {:induction false} TakenIs(made: seq<Option<Entry>>, at: seq<Entry>)
    requires |at| <= |made| && forall c | 0 <= c < |at| :: made[c] == Some(at[c])
    requires |at| < |made| ==> made[|at|].None?
    ensures Taken(made) == at
  {
    if at != [] {
      TakenIs(made[1..], at[1..]);
      assert at == [at[0]] + at[1..];
    }
  }

  method SpillNext(dir: Dir, ghost fs: Fs, ghost at: seq<Entry>, lts: seq<nat>, b: Batch, c: nat)
    requires c < |at| == |lts| == |b.cols| && b.cols[c].Ok? && Ready(dir.fs, at) && dir.fs == Spilled(fs, Chunks(lts, b), c)
    modifies dir
    ensures Ready(dir.fs, at) && dir.fs == Spilled(fs, Chunks(lts, b), c + 1)
  {
    PutReady(dir.fs, at, c, Chunks(lts, b)[c]);
    AppendChunk(dir, c, lts[c], b.cols[c].value);
  }

  /** The first `m` columns of a batch are converted and in the files. */
  ghost predicate SpilledTo(now: Fs, fs: Fs, at: seq<Entry>, lts: seq<nat>, b: Batch, m: nat) {
    && m <= |at| == |lts| == |b.cols| && Ready(now, at) && now == Spilled(fs, Chunks(lts, b), m)
    && forall c | 0 <= c < m :: b.cols[c].Ok?
  }

  method SpillStep(dir: Dir, ghost fs: Fs, ghost at: seq<Entry>, lts: seq<nat>, b: Batch, c: nat) returns (ok: bool)
    requires c < |lts| && SpilledTo(dir.fs, fs, at, lts, b, c)
    modifies dir
    ensures ok <==> b.cols[c].Ok?
    ensures ok ==> SpilledTo(dir.fs, fs, at, lts, b, c + 1)
    ensures !ok ==> dir.fs == old(dir.fs)
  {
    ok := b.cols[c].Ok?;
    if ok {
      SpillNext(dir, fs, at, lts, b, c);
    }
  }

  /** The first column that cannot be converted. */
  function BadColumn(cols: seq<Result<Column>>): (c: nat)
    ensures c <= |cols| && (forall i | 0 <= i < c :: cols[i].Ok?) && (c < |cols| ==> cols[c].Err?)
  {
    if cols == [] || cols[0].Err? then 0 else 1 + BadColumn(cols[1..])
  }

  /** The first batch that cannot be converted. */
  function BadBatch(bs: seq<Batch>): (k: nat)
    ensures k <= |bs| && (forall i | 0 <= i < k :: Converted(bs[i])) && (k < |bs| ==> !Converted(bs[k]))
  {
    if bs == [] || !Converted(bs[0]) then 0 else 1 + BadBatch(bs[1..])
  }

  /** The files when the conversion of a batch fails: every column before it is spilled. */
  function SpilledUpTo(fs: Fs, lts: seq<nat>, bs: seq<Batch>): Fs {
    var k := BadBatch(bs);
    if k == |bs| then SpilledAll(fs, Rounds(lts, bs), k)
    else Spilled(SpilledAll(fs, Rounds(lts, bs), k), Chunks(lts, bs[k]), Min(BadColumn(bs[k].cols), |lts|))
  }

  /** One batch, column by column, up to the first that cannot be converted. */
  method SpillBatch(dir: Dir, ghost at: seq<Entry>, lts: seq<nat>, b: Batch) returns (ok: bool)
    requires |at| == |lts| == |b.cols| && Ready(dir.fs, at)
    modifies dir
    ensures ok <==> Converted(b)
    ensures ok ==> SpilledTo(dir.fs, old(dir.fs), at, lts, b, |at|)
    ensures !ok ==> BadColumn(b.cols) < |lts| && SpilledTo(dir.fs, old(dir.fs), at, lts, b, BadColumn(b.cols))
  {
    ghost var fs := dir.fs;
    for c := 0 to |lts|
      invariant SpilledTo(dir.fs, fs, at, lts, b, c)
    {
      ok := SpillStep(dir, fs, at, lts, b, c);
      if !ok {
        assert c == BadColumn(b.cols);
        return false;
      }
    }
    ok := true;
  }

  /** The first `k` batches are in the files. */
  ghost predicate AllSpilledTo(now: Fs, fs: Fs, at: seq<Entry>, lts: seq<nat>, bs: seq<Batch>, k: nat) {
    && Ready(now, at) && |at| == |lts| && k <= |bs|
    && now == SpilledAll(fs, Rounds(lts, bs), k)
    && forall i | 0 <= i < k :: Converted(bs[i])
  }

  method SpillRound(dir: Dir, ghost fs: Fs, ghost at: seq<Entry>, lts: seq<nat>, bs: seq<Batch>, k: nat) returns (ok: bool)
    requires k < |bs| && |bs[k].cols| == |lts| == |at| && AllSpilledTo(dir.fs, fs, at, lts, bs, k)
    modifies dir
    ensures ok <==> Converted(bs[k])
    ensures ok ==> AllSpilledTo(dir.fs, fs, at, lts, bs, k + 1)
    ensures !ok ==> dir.fs == SpilledUpTo(fs, lts, bs)
  {
    assert Rounds(lts, bs)[k] == Chunks(lts, bs[k]);
    ok := SpillBatch(dir, at, lts, bs[k]);
    if !ok {
      assert k == BadBatch(bs);
    }
  }

  method SpillAll(dir: Dir, ghost at: seq<Entry>, lts: seq<nat>, bs: seq<Batch>) returns (ok: bool, total: nat)
    requires |at| == |lts| && Ready(dir.fs, at) && AllAgree(lts, bs)
    modifies dir
    ensures ok <==> AllConverted(bs)
    ensures ok ==> total == Rows(bs) && Ready(dir.fs, at) && dir.fs == SpilledAll(old(dir.fs), Rounds(lts, bs), |bs|)
    ensures !ok ==> dir.fs == SpilledUpTo(old(dir.fs), lts, bs)
  {
    ghost var fs := dir.fs;
    total := 0;
    for k := 0 to |bs|
      invariant AllSpilledTo(dir.fs, fs, at, lts, bs, k) && total == Rows(bs[..k])
    {
      assert Agrees(lts, bs[k]);
      ok := SpillRound(dir, fs, at, lts, bs, k);
      if !ok {
        return;
      }
      RowsMore(bs, k);
      total := total + bs[k].rows;
    }
    assert bs[..|bs|] == bs;
    ok := true;
  }

  lemma RowsMore(bs: seq<Batch>, k: nat)
    requires k < |bs|
    ensures Rows(bs[..k + 1]) == Rows(bs[..k]) + bs[k].rows
  {
    assert bs[..k + 1][..k] == bs[..k];
  }

  method PatchNext(dir: Dir, ghost fs: Fs, ghost at: seq<Entry>, lts: seq<nat>, n: nat, c: nat)
    requires c < |at| == |lts| && Ready(dir.fs, at) && dir.fs == PatchedAll(fs, Slots(lts, n), c)
    modifies dir
    ensures Ready(dir.fs, at) && dir.fs == PatchedAll(fs, Slots(lts, n), c + 1)
  {
    var x := Slots(lts, n)[c];
    SeekReady(dir.fs, at, c, x.p);
    PutReady(Sought(dir.fs, c, x.p), at, c, x.b);
    PatchCount(dir, c, lts[c] == KS, n);
  }

  method PatchCounts(dir: Dir, ghost at: seq<Entry>, lts: seq<nat>, n: nat)
    requires |at| == |lts| && Ready(dir.fs, at)
    modifies dir
    ensures dir.fs == PatchedAll(old(dir.fs), Slots(lts, n), |at|)
  {
    ghost var fs := dir.fs;
    for c := 0 to |lts|
      invariant Ready(dir.fs, at) && dir.fs == PatchedAll(fs, Slots(lts, n), c)
    {
      PatchNext(dir, fs, at, lts, n, c);
    }
  }

  /** The files when a stream stops between the checks and the rename. */
  function Stopped(world: map<Entry, Bytes>, names: seq<Bytes>, made: seq<Option<Entry>>, lts: seq<nat>, bs: seq<Batch>): Fs
    requires |made| == |lts|
  {
    var at := Taken(made);
    var fs := Opened(Started(world, names), at, Heads(lts), |at|);
    if |at| < |made| then fs else SpilledUpTo(fs, lts, bs)
  }

  /** Everything between the checks and the rename. */
  method Build(dir: Dir, names: seq<Bytes>, made: seq<Option<Entry>>, lts: seq<nat>, bs: seq<Batch>)
    returns (ok: bool, total: nat)
    requires |names| == |lts| == |made| && AllAgree(lts, bs) && dir.fs.hs == []
    modifies dir
    ensures ok <==> |Taken(made)| == |made| && AllConverted(bs)
    ensures ok ==> total == Rows(bs) && dir.fs == Streamed(old(dir.fs.files), names, Taken(made), lts, bs)
    ensures !ok ==> dir.fs == Stopped(old(dir.fs.files), names, made, lts, bs)
  {
    ghost var world := dir.fs.files;
    WriteManifest(dir, names);
    var at := OpenColumns(dir, made, lts);
    if |at| < |made| {
      return false, 0;
    }
    assert at[..|at|] == at;
    OpenedEntries(Started(world, names), at, Heads(lts), |at|);
    ok, total := SpillAll(dir, at, lts, bs);
    if ok {
      PatchCounts(dir, at, lts, total);
    }
  }

  /** A stream that stops has written to the files it created and to no other. */
  lemma StoppedEntries(world: map<Entry, Bytes>, names: seq<Bytes>, made: seq<Option<Entry>>, lts: seq<nat>, bs: seq<Batch>)
    requires |made| == |lts| && AllAgree(lts, bs)
    ensures Entire(world, Stopped(world, names, made, lts, bs).files, Taken(made))
  {
    var at, m := Taken(made), SymHead(|names|) + Raw(names);
    StartsWithManifest(world, names);
    var start := Started(world, names);
    assert at[..|at|] == at;
    OpenedEntries(start, at, Heads(lts), |at|);
    if |at| == |made| {
      SpilledUpToEntries(start.files, Opened(start, at, Heads(lts), |at|), at, lts, bs);
    }
    EntriesAreEntire(world, m, Stopped(world, names, made, lts, bs), at);
  }

  lemma SpilledUpToEntries(was: map<Entry, Bytes>, fs: Fs, at: seq<Entry>, lts: seq<nat>, bs: seq<Batch>)
    requires |at| == |lts| && Entries(was, fs, at)
    ensures Entries(was, SpilledUpTo(fs, lts, bs), at)
  {
    var k := BadBatch(bs);
    SpilledAllEntries(was, fs, at, Rounds(lts, bs), k);
    if k < |bs| {
      SpilledEntries(was, SpilledAll(fs, Rounds(lts, bs), k), at, Chunks(lts, bs[k]), Min(BadColumn(bs[k].cols), |lts|));
    }
  }
}
