/**
 Files of a file system, written through handles that each keep a position of their own.
 Two handles on one entry share its bytes.  What becomes of a set of files that are
 each opened, headed, appended to in turn and patched is worked out here on bytes
 alone, shared files included.
 */
module Handles {
  import opened Common

  // ---- bytes ----

  /** `b` written at `p`: over what is there and past the end, a gap before it read as zeros. */
  function Over(s: Bytes, p: nat, b: Bytes): (r: Bytes)
    ensures b != [] ==> |r| == Max(|s|, p + |b|)
  {
    if b == [] then s
    else
      seq(Max(|s|, p + |b|), i requires 0 <= i < Max(|s|, p + |b|) =>
        if p <= i < p + |b| then b[i - p] else if i < |s| then s[i] else 0)
  }

  lemma OverEnd(s: Bytes, b: Bytes)
    ensures Over(s, |s|, b) == s + b
  {}

  /** Byte `i` after the write. */
  function ByteAt(s: Bytes, p: nat, b: Bytes, i: nat): Byte {
    if p <= i < p + |b| then b[i - p] else if i < |s| then s[i] else 0
  }

  lemma OverAt(s: Bytes, p: nat, b: Bytes, i: nat)
    requires i < |Over(s, p, b)|
    ensures Over(s, p, b)[i] == ByteAt(s, p, b, i)
  {}

  /** A write past the end leaves zeros between. */
  lemma GapIsZero(s: Bytes, p: nat, b: Bytes, i: nat)
    requires b != [] && |s| <= i < p
    ensures i < |Over(s, p, b)| && Over(s, p, b)[i] == 0
  {}

  lemma BytesMeet(s: Bytes, p: nat, a: Bytes, b: Bytes, t: Bytes, i: nat)
    requires i < |t| ==> t[i] == ByteAt(s, p, a, i)
    requires i >= |t| ==> i >= p + |a| && i >= |s|
    ensures ByteAt(t, p + |a|, b, i) == ByteAt(s, p, a + b, i)
  {}

  lemma TwoWritesAt(s: Bytes, p: nat, a: Bytes, b: Bytes, i: nat)
    requires a != [] && b != [] && i < |Over(Over(s, p, a), p + |a|, b)| == |Over(s, p, a + b)|
    ensures Over(Over(s, p, a), p + |a|, b)[i] == Over(s, p, a + b)[i]
  {
    var t := Over(s, p, a);
    OverAt(t, p + |a|, b, i);
    OverAt(s, p, a + b, i);
    if i < |t| {
      OverAt(s, p, a, i);
    }
    BytesMeet(s, p, a, b, t, i);
  }

  lemma SameBytes(x: Bytes, y: Bytes)
    requires |x| == |y| && forall i | 0 <= i < |x| :: x[i] == y[i]
    ensures x == y
  {}

  lemma TwoWrites(s: Bytes, p: nat, a: Bytes, b: Bytes, x: Bytes, y: Bytes)
    requires a != [] && b != [] && x == Over(Over(s, p, a), p + |a|, b) && y == Over(s, p, a + b)
    ensures x == y
  {
    assert |x| == |y|;
    forall i | 0 <= i < |x|
      ensures x[i] == y[i]
    {
      TwoWritesAt(s, p, a, b, i);
    }
    SameBytes(x, y);
  }

  /** Two writes in a row are one. */
  lemma OverOver(s: Bytes, p: nat, a: Bytes, b: Bytes)
    ensures Over(Over(s, p, a), p + |a|, b) == Over(s, p, a + b)
  {
    if a == [] {
      assert a + b == b;
    } else if b == [] {
      assert a + b == a;
    } else {
      TwoWrites(s, p, a, b, Over(Over(s, p, a), p + |a|, b), Over(s, p, a + b));
    }
  }

  lemma OverMiddle(front: Bytes, slot: Bytes, slot': Bytes, tail: Bytes)
    requires |slot'| == |slot| > 0
    ensures Over(front + slot + tail, |front|, slot') == front + slot' + tail
  {}

  /** Writing the next bytes of what a file will be, at or before its end, keeps it on the way. */
  lemma OverPrefix(s: Bytes, z: Bytes, p: nat, b: Bytes)
    requires s <= z && p <= |s| && p + |b| <= |z| && z[p..p + |b|] == b
    ensures Over(s, p, b) <= z && |Over(s, p, b)| == Max(|s|, p + |b|)
  {
    var r := Over(s, p, b);
    forall i | 0 <= i < |r|
      ensures r[i] == z[i]
    {
      if b != [] && p <= i < p + |b| {
        assert z[p..p + |b|][i - p] == z[i];
      }
    }
  }

  // ---- files and handles ----

  /**
   Where a file lives: in the directory being built beside the target, in the directory
   under the target's own name, or outside both.
   */
  datatype Entry = Beside(e: Bytes) | Under(e: Bytes) | Outside(path: Bytes)

  /** An open file: the directory entry it was opened at, and its own position. */
  datatype Handle = Handle(entry: Entry, pos: nat)

  datatype Fs = Fs(files: map<Entry, Bytes>, hs: seq<Handle>)

  predicate Open(fs: Fs, h: nat) {
    h < |fs.hs| && fs.hs[h].entry in fs.files
  }

  /** `File::create`: an entry that is there is cut to nothing, for every handle on it. */
  function Created(fs: Fs, e: Entry): Fs {
    Fs(fs.files[e := []], fs.hs + [Handle(e, 0)])
  }

  function Put(fs: Fs, h: nat, b: Bytes): Fs {
    if Open(fs, h) then
      var x := fs.hs[h];
      Fs(fs.files[x.entry := Over(fs.files[x.entry], x.pos, b)], fs.hs[h := Handle(x.entry, x.pos + |b|)])
    else fs
  }

  function Sought(fs: Fs, h: nat, p: nat): Fs {
    if Open(fs, h) then fs.(hs := fs.hs[h := Handle(fs.hs[h].entry, p)]) else fs
  }

  /** The last handle dropped. */
  function Closed(fs: Fs): Fs
    requires fs.hs != []
  {
    fs.(hs := fs.hs[..|fs.hs| - 1])
  }

  /** A piece of a file rewritten where it stands. */
  datatype Slot = Slot(p: nat, b: Bytes)

  function Patched(fs: Fs, h: nat, x: Slot): Fs {
    Put(Sought(fs, h, x.p), h, x.b)
  }

  lemma PutPut(fs: Fs, h: nat, a: Bytes, b: Bytes)
    requires Open(fs, h)
    ensures Put(Put(fs, h, a), h, b) == Put(fs, h, a + b)
  {
    OverOver(fs.files[fs.hs[h].entry], fs.hs[h].pos, a, b);
  }

  lemma PutNothing(fs: Fs, h: nat)
    requires Open(fs, h)
    ensures Put(fs, h, []) == fs
  {}

  class Dir {
    var fs: Fs

    constructor (files: map<Entry, Bytes>)
      ensures fs == Fs(files, [])
    {
      fs := Fs(files, []);
    }

    method Create(e: Entry) returns (h: nat)
      modifies this
      ensures fs == Created(old(fs), e) && h == |old(fs).hs|
    {
      h := |fs.hs|;
      fs := Fs(fs.files[e := []], fs.hs + [Handle(e, 0)]);
    }

    method WriteAll(h: nat, b: Bytes)
      requires Open(fs, h)
      modifies this
      ensures fs == Put(old(fs), h, b)
    {
      var x := fs.hs[h];
      fs := Fs(fs.files[x.entry := Over(fs.files[x.entry], x.pos, b)], fs.hs[h := Handle(x.entry, x.pos + |b|)]);
    }

    method Seek(h: nat, p: nat)
      requires Open(fs, h)
      modifies this
      ensures fs == Sought(old(fs), h, p)
    {
      fs := fs.(hs := fs.hs[h := Handle(fs.hs[h].entry, p)]);
    }

    method Close()
      requires fs.hs != []
      modifies this
      ensures fs == Closed(old(fs))
    {
      fs := fs.(hs := fs.hs[..|fs.hs| - 1]);
    }
  }

  /** A file created, written once and closed. */
  lemma FreshFile(files: map<Entry, Bytes>, e: Entry, b: Bytes)
    ensures Closed(Put(Created(Fs(files, []), e), 0, b)) == Fs(files[e := b], [])
  {
    OverEnd([], b);
    assert [] + b == b;
  }

  // ---- files opened, appended to in turn, and patched ----

  /** The first `m` files opened and headed. */
  function Opened(fs: Fs, at: seq<Entry>, heads: seq<Bytes>, m: nat): Fs
    requires m <= |at| && m <= |heads|
  {
    if m == 0 then fs else Put(Created(Opened(fs, at, heads, m - 1), at[m - 1]), m - 1, heads[m - 1])
  }

  /** The first `m` chunks, each written where its handle stands. */
  function Spilled(fs: Fs, chunks: seq<Bytes>, m: nat): Fs
    requires m <= |chunks|
  {
    if m == 0 then fs else Put(Spilled(fs, chunks, m - 1), m - 1, chunks[m - 1])
  }

  /** The chunks of the first `k` rounds. */
  function SpilledAll(fs: Fs, rounds: seq<seq<Bytes>>, k: nat): Fs
    requires k <= |rounds|
  {
    if k == 0 then fs else Spilled(SpilledAll(fs, rounds, k - 1), rounds[k - 1], |rounds[k - 1]|)
  }

  /** The slots of the first `m` files patched. */
  function PatchedAll(fs: Fs, slots: seq<Slot>, m: nat): Fs
    requires m <= |slots|
  {
    if m == 0 then fs else Patched(PatchedAll(fs, slots, m - 1), m - 1, slots[m - 1])
  }

  /** Files opened one after another, appended to in rounds, and patched. */
  function Written(fs: Fs, at: seq<Entry>, heads: seq<Bytes>, rounds: seq<seq<Bytes>>, slots: seq<Slot>): Fs
    requires |at| == |heads|
  {
    PatchedAll(SpilledAll(Opened(fs, at, heads, |at|), rounds, |rounds|), slots, |slots|)
  }

  // ---- the handles, and the files left alone ----

  /** Handle c was opened at entry `at[c]`. */
  ghost predicate Ready(fs: Fs, at: seq<Entry>) {
    |fs.hs| == |at| && forall c | 0 <= c < |at| :: fs.hs[c].entry == at[c] && Open(fs, c)
  }

  /**
   The handles are where they were opened, the entries are those of `was` and `at`, and
   the files of the former alone are as they were.
   */
  ghost predicate Entries(was: map<Entry, Bytes>, fs: Fs, at: seq<Entry>) {
    && Ready(fs, at)
    && (forall e :: e in fs.files <==> e in was || e in at)
    && (forall e | e in was && e !in at :: fs.files[e] == was[e])
  }

  lemma PutReady(fs: Fs, at: seq<Entry>, c: nat, b: Bytes)
    requires Ready(fs, at) && c < |at|
    ensures Open(fs, c) && Ready(Put(fs, c, b), at)
  {
    var r := Put(fs, c, b);
    forall d | 0 <= d < |at|
      ensures r.hs[d].entry == at[d] && Open(r, d)
    {
      assert fs.hs[d].entry == at[d] && Open(fs, d);
    }
  }

  lemma SeekReady(fs: Fs, at: seq<Entry>, c: nat, p: nat)
    requires Ready(fs, at) && c < |at|
    ensures Open(fs, c) && Ready(Sought(fs, c, p), at)
  {
    forall d | 0 <= d < |at|
      ensures Sought(fs, c, p).hs[d].entry == at[d] && Open(Sought(fs, c, p), d)
    {
      assert fs.hs[d].entry == at[d] && Open(fs, d);
    }
  }

  lemma PutEntries(was: map<Entry, Bytes>, fs: Fs, at: seq<Entry>, c: nat, b: Bytes)
    requires Entries(was, fs, at) && c < |at|
    ensures Entries(was, Put(fs, c, b), at)
  {
    PutReady(fs, at, c, b);
    assert fs.hs[c].entry == at[c];
  }

  lemma OpenEntries(was: map<Entry, Bytes>, fs: Fs, at: seq<Entry>, e: Entry, head: Bytes)
    requires Entries(was, fs, at)
    ensures Entries(was, Put(Created(fs, e), |at|, head), at + [e])
  {
    var r := Put(Created(fs, e), |at|, head);
    forall d | 0 <= d < |at + [e]|
      ensures r.hs[d].entry == (at + [e])[d] && Open(r, d)
    {
      if d < |at| {
        assert fs.hs[d].entry == at[d] && Open(fs, d);
      }
    }
  }

  lemma {:induction false} OpenedEntries(fs: Fs, at: seq<Entry>, heads: seq<Bytes>, m: nat)
    requires fs.hs == [] && m <= |at| && m <= |heads|
    ensures Entries(fs.files, Opened(fs, at, heads, m), at[..m])
  {
    if m > 0 {
      OpenedEntries(fs, at, heads, m - 1);
      assert at[..m] == at[..m - 1] + [at[m - 1]];
      OpenEntries(fs.files, Opened(fs, at, heads, m - 1), at[..m - 1], at[m - 1], heads[m - 1]);
    }
  }

  lemma {:induction false} SpilledEntries(was: map<Entry, Bytes>, fs: Fs, at: seq<Entry>, chunks: seq<Bytes>, m: nat)
    requires m <= |chunks| <= |at| && Entries(was, fs, at)
    ensures Entries(was, Spilled(fs, chunks, m), at)
  {
    if m > 0 {
      SpilledEntries(was, fs, at, chunks, m - 1);
      PutEntries(was, Spilled(fs, chunks, m - 1), at, m - 1, chunks[m - 1]);
    }
  }

  lemma {:induction false} SpilledAllEntries(was: map<Entry, Bytes>, fs: Fs, at: seq<Entry>, rounds: seq<seq<Bytes>>, k: nat)
    requires k <= |rounds| && Even(rounds, |at|) && Entries(was, fs, at)
    ensures Entries(was, SpilledAll(fs, rounds, k), at)
  {
    if k > 0 {
      SpilledAllEntries(was, fs, at, rounds, k - 1);
      SpilledEntries(was, SpilledAll(fs, rounds, k - 1), at, rounds[k - 1], |at|);
    }
  }

  lemma PatchEntries(was: map<Entry, Bytes>, fs: Fs, at: seq<Entry>, c: nat, x: Slot)
    requires Entries(was, fs, at) && c < |at|
    ensures Entries(was, Patched(fs, c, x), at)
  {
    SeekReady(fs, at, c, x.p);
    PutEntries(was, Sought(fs, c, x.p), at, c, x.b);
  }

  lemma {:induction false} PatchedAllEntries(was: map<Entry, Bytes>, fs: Fs, at: seq<Entry>, slots: seq<Slot>, m: nat)
    requires m <= |slots| <= |at| && Entries(was, fs, at)
    ensures Entries(was, PatchedAll(fs, slots, m), at)
  {
    if m > 0 {
      PatchedAllEntries(was, fs, at, slots, m - 1);
      PatchEntries(was, PatchedAll(fs, slots, m - 1), at, m - 1, slots[m - 1]);
    }
  }

  /** The directory gains the files written, and those it had elsewhere are as they were. */
  lemma WrittenEntries(fs: Fs, at: seq<Entry>, heads: seq<Bytes>, rounds: seq<seq<Bytes>>, slots: seq<Slot>)
    requires fs.hs == [] && |at| == |heads| == |slots| && Even(rounds, |at|)
    ensures Entries(fs.files, Written(fs, at, heads, rounds, slots), at)
  {
    assert at[..|at|] == at;
    var ready := Opened(fs, at, heads, |at|);
    OpenedEntries(fs, at, heads, |at|);
    SpilledAllEntries(fs.files, ready, at, rounds, |rounds|);
    PatchedAllEntries(fs.files, SpilledAll(ready, rounds, |rounds|), at, slots, |at|);
  }

  /** Every round has a chunk for each of `n` files. */
  predicate Even(rounds: seq<seq<Bytes>>, n: nat) {
    forall i | 0 <= i < |rounds| :: |rounds[i]| == n
  }

  // ---- shared files written alike ----

  /** File `c` with the chunks of the first `k` rounds. */
  ghost function Filled(heads: seq<Bytes>, rounds: seq<seq<Bytes>>, k: nat, c: nat): Bytes
    requires c < |heads| && k <= |rounds| && Even(rounds, |heads|)
  {
    if k == 0 then heads[c] else Filled(heads, rounds, k - 1, c) + rounds[k - 1][c]
  }

  /** Columns that share an entry have the same bytes to put there. */
  ghost predicate SameZs(at: seq<Entry>, zs: seq<Bytes>) {
    |at| == |zs| && forall c, d | 0 <= c < |at| && 0 <= d < |at| && at[c] == at[d] :: zs[c] == zs[d]
  }

  /** File `c` is on the way to `z`, its handle at `pos`, inside. */
  ghost predicate OnTheWay(fs: Fs, c: nat, e: Entry, z: Bytes, pos: nat) {
    && c < |fs.hs| && fs.hs[c] == Handle(e, pos)
    && e in fs.files && fs.files[e] <= z && pos <= |fs.files[e]|
  }

  ghost predicate Along(fs: Fs, at: seq<Entry>, zs: seq<Bytes>, pos: seq<nat>) {
    && |pos| <= |at| == |zs| && |fs.hs| == |pos|
    && forall c | 0 <= c < |pos| :: OnTheWay(fs, c, at[c], zs[c], pos[c])
  }

  lemma PutAlong(fs: Fs, at: seq<Entry>, zs: seq<Bytes>, pos: seq<nat>, c: nat, b: Bytes)
    requires Along(fs, at, zs, pos) && SameZs(at, zs) && c < |pos|
    requires pos[c] + |b| <= |zs[c]| && zs[c][pos[c]..pos[c] + |b|] == b
    ensures Open(fs, c) && Along(Put(fs, c, b), at, zs, pos[c := pos[c] + |b|])
  {
    assert OnTheWay(fs, c, at[c], zs[c], pos[c]);
    OverPrefix(fs.files[at[c]], zs[c], pos[c], b);
    var r, pos' := Put(fs, c, b), pos[c := pos[c] + |b|];
    forall d | 0 <= d < |pos|
      ensures OnTheWay(r, d, at[d], zs[d], pos'[d])
    {
      assert OnTheWay(fs, d, at[d], zs[d], pos[d]);
    }
  }

  /** One more file, its head a prefix of what it will be. */
  lemma OpenAlong(fs: Fs, at: seq<Entry>, zs: seq<Bytes>, pos: seq<nat>, head: Bytes)
    requires Along(fs, at, zs, pos) && SameZs(at, zs) && |pos| < |at|
    requires head <= zs[|pos|] && forall c | 0 <= c < |pos| && at[c] == at[|pos|] :: pos[c] <= |head|
    ensures Along(Put(Created(fs, at[|pos|]), |pos|, head), at, zs, pos + [|head|])
  {
    var m := |pos|;
    var r, pos' := Put(Created(fs, at[m]), m, head), pos + [|head|];
    OverEnd([], head);
    assert [] + head == head;
    forall d | 0 <= d <= m
      ensures OnTheWay(r, d, at[d], zs[d], pos'[d])
    {
      if d < m {
        assert OnTheWay(fs, d, at[d], zs[d], pos[d]);
      }
    }
  }

  /** What each file will be before it is patched. */
  ghost function Zs(heads: seq<Bytes>, rounds: seq<seq<Bytes>>): (zs: seq<Bytes>)
    requires Even(rounds, |heads|)
    ensures |zs| == |heads|
  {
    seq(|heads|, c requires 0 <= c < |heads| => Filled(heads, rounds, |rounds|, c))
  }

  lemma {:induction false} FilledGrows(heads: seq<Bytes>, rounds: seq<seq<Bytes>>, k: nat, n: nat, c: nat)
    requires c < |heads| && k <= n <= |rounds| && Even(rounds, |heads|)
    ensures Filled(heads, rounds, k, c) <= Filled(heads, rounds, n, c)
  {
    if k < n {
      FilledGrows(heads, rounds, k, n - 1, c);
    }
  }

  /** Where handle `c` stands after `k` rounds. */
  ghost function Stand(heads: seq<Bytes>, rounds: seq<seq<Bytes>>, k: nat, c: nat): nat
    requires c < |heads| && k <= |rounds| && Even(rounds, |heads|)
  {
    |Filled(heads, rounds, k, c)|
  }

  /** ... after `k` rounds and the first `m` chunks of the next. */
  ghost function Stands(heads: seq<Bytes>, rounds: seq<seq<Bytes>>, k: nat, m: nat): (pos: seq<nat>)
    requires k <= |rounds| && (m > 0 ==> k < |rounds|)
    requires Even(rounds, |heads|)
    ensures |pos| == |heads|
  {
    seq(|heads|, c requires 0 <= c < |heads| => if c < m then Stand(heads, rounds, k + 1, c) else Stand(heads, rounds, k, c))
  }

  /** The chunk is what comes next in the file, where the handle stands. */
  lemma ChunkFits(heads: seq<Bytes>, rounds: seq<seq<Bytes>>, k: nat, c: nat)
    requires c < |heads| && k < |rounds| && Even(rounds, |heads|)
    ensures var z, p, b := Zs(heads, rounds)[c], Stand(heads, rounds, k, c), rounds[k][c];
            p + |b| == Stand(heads, rounds, k + 1, c) <= |z| && z[p..p + |b|] == b
  {
    FilledGrows(heads, rounds, k + 1, |rounds|, c);
    var z, x := Zs(heads, rounds)[c], Filled(heads, rounds, k + 1, c);
    assert z[..|x|] == x;
    assert z[Stand(heads, rounds, k, c)..|x|] == x[Stand(heads, rounds, k, c)..];
  }

  lemma SpillStep(was: Fs, at: seq<Entry>, heads: seq<Bytes>, rounds: seq<seq<Bytes>>, k: nat, c: nat)
    requires c < |heads| == |at| && k < |rounds| && Even(rounds, |heads|)
    requires SameZs(at, Zs(heads, rounds)) && Along(was, at, Zs(heads, rounds), Stands(heads, rounds, k, c))
    ensures Open(was, c) && Along(Put(was, c, rounds[k][c]), at, Zs(heads, rounds), Stands(heads, rounds, k, c + 1))
  {
    ChunkFits(heads, rounds, k, c);
    var pos, b := Stands(heads, rounds, k, c), rounds[k][c];
    PutAlong(was, at, Zs(heads, rounds), pos, c, b);
    assert Stands(heads, rounds, k, c + 1) == pos[c := pos[c] + |b|];
  }

  lemma {:induction false} SpilledAlong(fs: Fs, at: seq<Entry>, heads: seq<Bytes>, rounds: seq<seq<Bytes>>, k: nat, m: nat)
    requires m <= |heads| == |at| && k < |rounds| && Even(rounds, |heads|)
    requires SameZs(at, Zs(heads, rounds)) && Along(fs, at, Zs(heads, rounds), Stands(heads, rounds, k, 0))
    ensures Along(Spilled(fs, rounds[k], m), at, Zs(heads, rounds), Stands(heads, rounds, k, m))
  {
    if m > 0 {
      SpilledAlong(fs, at, heads, rounds, k, m - 1);
      SpillStep(Spilled(fs, rounds[k], m - 1), at, heads, rounds, k, m - 1);
    }
  }

  lemma RoundAlong(was: Fs, at: seq<Entry>, heads: seq<Bytes>, rounds: seq<seq<Bytes>>, k: nat)
    requires |heads| == |at| && k < |rounds| && Even(rounds, |heads|)
    requires SameZs(at, Zs(heads, rounds)) && Along(was, at, Zs(heads, rounds), Stands(heads, rounds, k, 0))
    ensures Along(Spilled(was, rounds[k], |at|), at, Zs(heads, rounds), Stands(heads, rounds, k + 1, 0))
  {
    SpilledAlong(was, at, heads, rounds, k, |heads|);
    assert Stands(heads, rounds, k, |heads|) == Stands(heads, rounds, k + 1, 0);
  }

  lemma {:induction false} SpilledAllAlong(fs: Fs, at: seq<Entry>, heads: seq<Bytes>, rounds: seq<seq<Bytes>>, k: nat)
    requires |heads| == |at| && k <= |rounds| && Even(rounds, |heads|)
    requires SameZs(at, Zs(heads, rounds)) && Along(fs, at, Zs(heads, rounds), Stands(heads, rounds, 0, 0))
    ensures Along(SpilledAll(fs, rounds, k), at, Zs(heads, rounds), Stands(heads, rounds, k, 0))
  {
    if k > 0 {
      SpilledAllAlong(fs, at, heads, rounds, k - 1);
      RoundAlong(SpilledAll(fs, rounds, k - 1), at, heads, rounds, k - 1);
    }
  }

  /** Where the first `m` handles stand once opened. */
  ghost function Starts(heads: seq<Bytes>, m: nat): (pos: seq<nat>)
    requires m <= |heads|
    ensures |pos| == m
  {
    seq(m, c requires 0 <= c < m => |heads[c]|)
  }

  lemma OpenStep(was: Fs, at: seq<Entry>, heads: seq<Bytes>, zs: seq<Bytes>, m: nat)
    requires m < |heads| == |at| && SameZs(at, zs) && SameZs(at, heads) && heads[m] <= zs[m]
    requires Along(was, at, zs, Starts(heads, m))
    ensures Along(Put(Created(was, at[m]), m, heads[m]), at, zs, Starts(heads, m + 1))
  {
    OpenAlong(was, at, zs, Starts(heads, m), heads[m]);
    assert Starts(heads, m + 1) == Starts(heads, m) + [|heads[m]|];
  }

  lemma {:induction false} OpenedAlong(fs: Fs, at: seq<Entry>, heads: seq<Bytes>, zs: seq<Bytes>, m: nat)
    requires fs.hs == [] && m <= |heads| == |at| && SameZs(at, zs) && SameZs(at, heads)
    requires forall c | 0 <= c < |heads| :: heads[c] <= zs[c]
    ensures Along(Opened(fs, at, heads, m), at, zs, Starts(heads, m))
  {
    if m > 0 {
      OpenedAlong(fs, at, heads, zs, m - 1);
      OpenStep(Opened(fs, at, heads, m - 1), at, heads, zs, m - 1);
    }
  }

  lemma HeadsBegin(heads: seq<Bytes>, rounds: seq<seq<Bytes>>)
    requires Even(rounds, |heads|)
    ensures forall c | 0 <= c < |heads| :: heads[c] <= Zs(heads, rounds)[c]
  {
    forall c | 0 <= c < |heads| {
      FilledGrows(heads, rounds, 0, |rounds|, c);
    }
  }

  /** File `c`, at entry `e`, is either `z`, as it was spilled, or `w`, patched; a file below `m` is patched. */
  ghost predicate Stage(fs: Fs, c: nat, e: Entry, z: Bytes, w: Bytes, m: nat) {
    e in fs.files && (fs.files[e] == w || (c >= m && fs.files[e] == z))
  }

  ghost predicate Counted(fs: Fs, at: seq<Entry>, zs: seq<Bytes>, ws: seq<Bytes>, m: nat) {
    && Ready(fs, at) && |at| == |zs| == |ws|
    && forall c | 0 <= c < |at| :: Stage(fs, c, at[c], zs[c], ws[c], m)
  }

  /** Patched, a file becomes `ws`, and stays it when patched again. */
  ghost predicate PatchesTo(slots: seq<Slot>, zs: seq<Bytes>, ws: seq<Bytes>) {
    && |slots| == |zs| == |ws|
    && forall c | 0 <= c < |slots| :: Over(zs[c], slots[c].p, slots[c].b) == ws[c] == Over(ws[c], slots[c].p, slots[c].b)
  }

  lemma PatchCounts(fs: Fs, at: seq<Entry>, slots: seq<Slot>, zs: seq<Bytes>, ws: seq<Bytes>, m: nat)
    requires Counted(fs, at, zs, ws, m) && m < |at| && PatchesTo(slots, zs, ws) && SameZs(at, zs) && SameZs(at, ws)
    ensures Open(fs, m) && Counted(Patched(fs, m, slots[m]), at, zs, ws, m + 1)
  {
    SeekReady(fs, at, m, slots[m].p);
    PutReady(Sought(fs, m, slots[m].p), at, m, slots[m].b);
    assert fs.hs[m].entry == at[m] && Stage(fs, m, at[m], zs[m], ws[m], m);
    var r := Patched(fs, m, slots[m]);
    assert r.files[at[m]] == ws[m];
    forall c | 0 <= c < |at|
      ensures Stage(r, c, at[c], zs[c], ws[c], m + 1)
    {
      assert Stage(fs, c, at[c], zs[c], ws[c], m);
    }
  }

  lemma {:induction false} PatchedAllCounts(fs: Fs, at: seq<Entry>, slots: seq<Slot>, zs: seq<Bytes>, ws: seq<Bytes>, m: nat)
    requires m <= |at| && Counted(fs, at, zs, ws, 0) && PatchesTo(slots, zs, ws) && SameZs(at, zs) && SameZs(at, ws)
    ensures Counted(PatchedAll(fs, slots, m), at, zs, ws, m)
  {
    if m > 0 {
      PatchedAllCounts(fs, at, slots, zs, ws, m - 1);
      PatchCounts(PatchedAll(fs, slots, m - 1), at, slots, zs, ws, m - 1);
    }
  }

  /** A handle at the end of what its file will be says the file is that. */
  lemma AtTheEnd(fs: Fs, at: seq<Entry>, heads: seq<Bytes>, rounds: seq<seq<Bytes>>, ws: seq<Bytes>)
    requires |heads| == |at| == |ws| && Even(rounds, |heads|)
    requires Along(fs, at, Zs(heads, rounds), Stands(heads, rounds, |rounds|, 0))
    ensures Counted(fs, at, Zs(heads, rounds), ws, 0)
  {
    forall c | 0 <= c < |at|
      ensures Stage(fs, c, at[c], Zs(heads, rounds)[c], ws[c], 0) && fs.hs[c].entry == at[c] && Open(fs, c)
    {
      assert OnTheWay(fs, c, at[c], Zs(heads, rounds)[c], Stands(heads, rounds, |rounds|, 0)[c]);
    }
  }

  /** Files that are shared by columns with the same bytes come out right all the same. */
  lemma WrittenRight(
    fs: Fs, at: seq<Entry>, heads: seq<Bytes>, rounds: seq<seq<Bytes>>, slots: seq<Slot>, ws: seq<Bytes>)
    requires fs.hs == [] && |at| == |heads| == |slots| && Even(rounds, |at|)
    requires SameZs(at, heads) && SameZs(at, Zs(heads, rounds)) && SameZs(at, ws)
    requires PatchesTo(slots, Zs(heads, rounds), ws)
    ensures forall c | 0 <= c < |at| ::
              at[c] in Written(fs, at, heads, rounds, slots).files && Written(fs, at, heads, rounds, slots).files[at[c]] == ws[c]
  {
    assert at[..|at|] == at;
    var ready := Opened(fs, at, heads, |at|);
    HeadsBegin(heads, rounds);
    OpenedAlong(fs, at, heads, Zs(heads, rounds), |at|);
    assert Starts(heads, |at|) == Stands(heads, rounds, 0, 0);
    SpilledAllAlong(ready, at, heads, rounds, |rounds|);
    AtTheEnd(SpilledAll(ready, rounds, |rounds|), at, heads, rounds, ws);
    PatchedAllCounts(SpilledAll(ready, rounds, |rounds|), at, slots, Zs(heads, rounds), ws, |at|);
    forall c | 0 <= c < |at|
      ensures var r := Written(fs, at, heads, rounds, slots); at[c] in r.files && r.files[at[c]] == ws[c]
    {
      assert Stage(Written(fs, at, heads, rounds, slots), c, at[c], Zs(heads, rounds)[c], ws[c], |at|);
    }
  }
}
