/**
 What a streamed table holds, value by value: row `r` of batch `k` stands in its
 column after the rows of the earlier batches, and is read from the new table's bytes
 there.
 */
module SplayValues {
  import opened Common
  import opened Handles
  import opened Splay
  import opened SplayReplace
  import opened SplayStream

  /** `own` stands in `all` from position `at` on. */
  ghost predicate StandsAt<T>(all: seq<T>, at: nat, own: seq<T>) {
    at + |own| <= |all| && forall r | 0 <= r < |own| :: all[at + r] == own[r]
  }

  /** The columns `col` and `own` are of one shape, and `own` stands in `col` at `at`. */
  ghost predicate ColumnStandsAt(col: Column, at: nat, own: Column) {
    match (col, own)
    case (Fixed(all), Fixed(vals)) => StandsAt(all, at, vals)
    case (Syms(all), Syms(syms)) => StandsAt(all, at, syms)
    case _ => false
  }

  lemma JoinStands(col: Column, more: Column, at: nat, own: Column)
    requires col.Fixed? <==> more.Fixed?
    ensures ColumnStandsAt(col, at, own) ==> ColumnStandsAt(Join(col, more), at, own)
    ensures ColumnStandsAt(Join(col, more), Count(col), more)
  {}

  /** A batch's own column stands in the whole one after the rows before it, and nothing else does: the counts agree. */
  lemma {:induction false} WholeHolds(lts: seq<nat>, bs: seq<Batch>, n: nat, c: nat, k: nat)
    requires c < |lts| && LTypes(lts) && Streamable(lts, bs) && k < n <= |bs|
    ensures c < |bs[k].cols| && bs[k].cols[c].Ok? && Count(bs[k].cols[c].value) == bs[k].rows
    ensures ColumnStandsAt(Whole(lts[c], bs[..n], c), Rows(bs[..k]), bs[k].cols[c].value)
    ensures Count(Whole(lts[c], bs[..n], c)) == Rows(bs[..n])
    decreases n
  {
    var last := bs[n - 1];
    assert Agrees(lts, bs[k]) && Converted(bs[k]) && Agrees(lts, last) && Converted(last);
    assert bs[..n][..n - 1] == bs[..n - 1];
    WholeCounts(lts, bs[..n - 1], c);
    WholeCounts(lts, bs[..n], c);
    if k < n - 1 {
      WholeHolds(lts, bs, n - 1, c, k);
    }
    JoinStands(Whole(lts[c], bs[..n - 1], c), last.cols[c].value, Rows(bs[..k]), bs[k].cols[c].value);
  }

  // ---- in the bytes ----

  /** The table as the target's name shows it after the rename. */
  ghost function Table(world: map<Entry, Bytes>, sys: Resolver, names: seq<Bytes>, lts: seq<nat>, bs: seq<Batch>): map<Entry, Bytes>
    requires Accepted(sys, names) && |names| == |lts|
  {
    After(world, names, Places(sys, names), lts, bs)
  }

  /** A stream of mapped types under names the system takes, each safe. */
  ghost predicate Sound(world: map<Entry, Bytes>, sys: Resolver, names: seq<Bytes>, lts: seq<nat>, bs: seq<Batch>) {
    && |names| == |lts| && LTypes(lts) && Streamable(lts, bs) && Refuses(sys) && Settled(world)
    && Accepted(sys, names) && Safe(Places(sys, names))
  }

  /** What column `c` reads as, in the file its name leads to. */
  ghost function ReadBack(world: map<Entry, Bytes>, sys: Resolver, names: seq<Bytes>, lts: seq<nat>, bs: seq<Batch>, c: nat)
    : Option<(nat, Column)>
    requires Accepted(sys, names) && c < |names| == |lts|
  {
    var table, read := Table(world, sys, names, lts, bs), sys(names[c]).value.read;
    if read.Some? && read.value in table then ReadColumn(table[read.value]) else None
  }

  lemma ReadsOneShot(world: map<Entry, Bytes>, sys: Resolver, names: seq<Bytes>, lts: seq<nat>, bs: seq<Batch>, c: nat)
    requires Sound(world, sys, names, lts, bs) && c < |names|
    ensures ReadBack(world, sys, names, lts, bs, c) == ReadColumn(OneShot(lts[c], Whole(lts[c], bs, c)))
  {
    StreamMeans(world, sys, names, lts, bs);
  }

  /** `r` is a column of type `lt` and `rows` fixed-width values, in which `own` stands at `at`. */
  ghost predicate ShowsFixed(r: Option<(nat, Column)>, lt: nat, rows: nat, at: nat, own: Column) {
    match r
    case Some((t, Fixed(vals))) => t == lt && |vals| == rows && own.Fixed? && StandsAt(vals, at, own.vals)
    case _ => false
  }

  /** `r` is a column of `rows` symbols, in which the texts of `own` stand at `at`, each up to its first NUL. */
  ghost predicate ShowsTexts(r: Option<(nat, Column)>, rows: nat, at: nat, own: Column) {
    match r
    case Some((t, Syms(syms))) => t == KS && |syms| == rows && own.Syms? && StandsAt(syms, at, CTexts(own.syms))
    case _ => false
  }

  lemma ShowsOwn(lt: nat, all: Column, at: nat, own: Column)
    requires Shaped(lt, all) && ColumnStandsAt(all, at, own)
    requires Count(all) < if lt == KS then 0x8000_0000 else 0x1_0000_0000_0000_0000
    ensures lt != KS ==> ShowsFixed(ReadColumn(OneShot(lt, all)), lt, Count(all), at, own)
    ensures lt == KS ==> ShowsTexts(ReadColumn(OneShot(lt, all)), Count(all), at, own)
  {
    if lt == KS {
      SymbolsReadBack(all.syms);
    } else {
      FixedReadsBack(lt, all.vals);
    }
  }

  /**
   A column's file gives the type, as many values as rows were streamed, and each
   batch's own values after the rows of the batches before it.
   */
  lemma ColumnsRead(
    world: map<Entry, Bytes>, sys: Resolver, names: seq<Bytes>, lts: seq<nat>, bs: seq<Batch>, c: nat, k: nat)
    requires Sound(world, sys, names, lts, bs) && c < |names| && k < |bs|
    requires Rows(bs) < if lts[c] == KS then 0x8000_0000 else 0x1_0000_0000_0000_0000
    ensures c < |bs[k].cols| && bs[k].cols[c].Ok? && Count(bs[k].cols[c].value) == bs[k].rows
    ensures var r := ReadBack(world, sys, names, lts, bs, c);
            && (lts[c] != KS ==> ShowsFixed(r, lts[c], Rows(bs), Rows(bs[..k]), bs[k].cols[c].value))
            && (lts[c] == KS ==> ShowsTexts(r, Rows(bs), Rows(bs[..k]), bs[k].cols[c].value))
  {
    ReadsOneShot(world, sys, names, lts, bs, c);
    WholeHolds(lts, bs, |bs|, c, k);
    WholeCounts(lts, bs, c);
    assert bs[..|bs|] == bs;
    ShowsOwn(lts[c], Whole(lts[c], bs, c), Rows(bs[..k]), bs[k].cols[c].value);
  }

  /** The manifest gives the names. */
  lemma NamesRead(world: map<Entry, Bytes>, sys: Resolver, names: seq<Bytes>, lts: seq<nat>, bs: seq<Batch>)
    requires Sound(world, sys, names, lts, bs) && |names| < 0x8000_0000
    ensures var table := Table(world, sys, names, lts, bs);
            Under([46, 100]) in table && ReadColumn(table[Under([46, 100])]) == Some((KS, Syms(names)))
  {
    StreamMeans(world, sys, names, lts, bs);
    assert forall c | 0 <= c < |names| :: sys(names[c]).Some?;
    ManifestReads(names);
  }

  lemma ManifestReads(names: seq<Bytes>)
    requires |names| < 0x8000_0000 && forall c | 0 <= c < |names| :: 0 !in names[c]
    ensures ReadColumn(Manifest(names)) == Some((KS, Syms(names)))
  {
    SymbolsReadBack(names);
    forall c | 0 <= c < |names|
      ensures CTexts(names)[c] == names[c]
    {
      CTextExact(names[c]);
    }
    assert CTexts(names) == names;
  }
}
