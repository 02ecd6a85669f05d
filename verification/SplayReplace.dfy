/**
 How a stream replaces the table under its target: which names the system takes and
 where they lead, what a stream that fails leaves behind, and for which names the new
 table is the one that was streamed.
 */
module SplayReplace {
  import opened Common
  import opened Handles
  import opened Splay
  import opened SplayStream

  // ---- where names lead ----

  /**
   What the system makes of a column name: the file it opens for it in the directory
   being built, and the file the name leads to in the table once that directory stands
   under the target's name, if to any.
   */
  datatype Place = Place(made: Entry, read: Option<Entry>)

  /** None when the system refuses the name. */
  type Resolver = Bytes -> Option<Place>

  /** NULs, the empty name and the two dot names are refused. */
  ghost predicate Refuses(sys: Resolver) {
    forall n | 0 in n || n in {[], [46], [46, 46]} :: sys(n).None?
  }

  /** A name without a slash, when taken, is a file of the directory being built, and of the table. */
  ghost predicate KeepsPlain(sys: Resolver) {
    forall n | 47 !in n && sys(n).Some? :: sys(n).value == Place(Beside(n), Some(Under(n)))
  }

  function MadeOf(sys: Resolver, names: seq<Bytes>): (made: seq<Option<Entry>>)
    ensures |made| == |names|
  {
    seq(|names|, c requires 0 <= c < |names| => if sys(names[c]).Some? then Some(sys(names[c]).value.made) else None)
  }

  ghost predicate Accepted(sys: Resolver, names: seq<Bytes>) {
    forall c | 0 <= c < |names| :: sys(names[c]).Some?
  }

  ghost function Places(sys: Resolver, names: seq<Bytes>): (ps: seq<Place>)
    requires Accepted(sys, names)
    ensures |ps| == |names|
  {
    seq(|names|, c requires 0 <= c < |names| => sys(names[c]).value)
  }

  function Mades(ps: seq<Place>): (at: seq<Entry>)
    ensures |at| == |ps|
  {
    seq(|ps|, c requires 0 <= c < |ps| => ps[c].made)
  }

  lemma AcceptedIsTaken(sys: Resolver, names: seq<Bytes>)
    ensures |Taken(MadeOf(sys, names))| == |names| <==> Accepted(sys, names)
    ensures Accepted(sys, names) ==> Taken(MadeOf(sys, names)) == Mades(Places(sys, names))
  {
    var made := MadeOf(sys, names);
    var at := Taken(made);
    forall c | 0 <= c < |at|
      ensures sys(names[c]).Some?
    {
      assert made[c] == Some(at[c]);
    }
    if Accepted(sys, names) {
      assert forall c | 0 <= c < |made| :: made[c].Some?;
    }
  }

  // ---- the end of a stream ----

  /** Before a stream there is no directory of its own. */
  ghost predicate Settled(world: map<Entry, Bytes>) {
    forall e | e in world :: !e.Beside?
  }

  /** The scratch directory removed. */
  function Dropped(files: map<Entry, Bytes>): map<Entry, Bytes> {
    map e | e in files && !e.Beside? :: files[e]
  }

  /** ... and the table under the target's name with it. */
  function Emptied(files: map<Entry, Bytes>): map<Entry, Bytes> {
    map e | e in files && e.Outside? :: files[e]
  }

  /** The table that was there removed, and the directory renamed to its name. */
  function Renamed(files: map<Entry, Bytes>): map<Entry, Bytes> {
    Emptied(files) + map e | e in files && e.Beside? :: Under(e.e) := files[e]
  }

  /** Where a file is after the rename. */
  function Final(e: Entry): Option<Entry> {
    match e
    case Beside(x) => Some(Under(x))
    case Under(_) => None
    case Outside(_) => Some(e)
  }

  lemma RenamedKeeps(files: map<Entry, Bytes>, e: Entry)
    requires Final(e).Some?
    ensures Final(e).value in Renamed(files) <==> e in files
    ensures e in files ==> Renamed(files)[Final(e).value] == files[e]
  {}

  /** The table read through its names: the manifest, and every column in the file its name leads to. */
  ghost predicate ComesOut(files: map<Entry, Bytes>, names: seq<Bytes>, ps: seq<Place>, lts: seq<nat>, bs: seq<Batch>)
    requires |ps| == |lts|
  {
    && Under(DotD()) in files && files[Under(DotD())] == Manifest(names)
    && forall c | 0 <= c < |ps| ::
         ps[c].read.Some? && ps[c].read.value in files && files[ps[c].read.value] == OneShot(lts[c], Whole(lts[c], bs, c))
  }

  ghost function After(world: map<Entry, Bytes>, names: seq<Bytes>, ps: seq<Place>, lts: seq<nat>, bs: seq<Batch>): map<Entry, Bytes>
    requires |ps| == |lts|
  {
    Renamed(Streamed(world, names, Mades(ps), lts, bs).files)
  }

  /** Every name leads, after the rename, to the file it was written to. */
  ghost predicate Straight(ps: seq<Place>) {
    forall c | 0 <= c < |ps| :: Final(ps[c].made).Some? && ps[c].read == Final(ps[c].made)
  }

  lemma StraightReads(files: map<Entry, Bytes>, names: seq<Bytes>, ps: seq<Place>, lts: seq<nat>, bs: seq<Batch>)
    requires |ps| == |lts| && Straight(ps)
    ensures ComesOut(Renamed(files), names, ps, lts, bs) <==> Right(files, names, Mades(ps), lts, bs)
  {
    RenamedKeeps(files, ManifestAt());
    forall c | 0 <= c < |ps|
      ensures ps[c].read.value in Renamed(files) <==> Mades(ps)[c] in files
      ensures Mades(ps)[c] in files ==> Renamed(files)[ps[c].read.value] == files[Mades(ps)[c]]
    {
      RenamedKeeps(files, ps[c].made);
    }
  }

  /** For names that lead straight, a table comes out right exactly when no two columns meet with different bytes, nor one the manifest. */
  lemma StraightExact(world: map<Entry, Bytes>, names: seq<Bytes>, ps: seq<Place>, lts: seq<nat>, bs: seq<Batch>)
    requires |ps| == |lts| && Straight(ps) && LTypes(lts) && Streamable(lts, bs)
    requires forall i | 0 <= i < |names| :: 0 !in names[i]
    ensures ComesOut(After(world, names, ps, lts, bs), names, ps, lts, bs) <==> NoClash(names, Mades(ps), lts, bs)
  {
    var files := Streamed(world, names, Mades(ps), lts, bs).files;
    StraightReads(files, names, ps, lts, bs);
    if NoClash(names, Mades(ps), lts, bs) {
      NoClashMeansRight(world, names, Mades(ps), lts, bs);
    } else if Right(files, names, Mades(ps), lts, bs) {
      RightMeansNoClash(files, names, Mades(ps), lts, bs);
    }
  }

  // ---- names safe for every table ----

  /**
   No name leads into the table that is there, each is a file of its own and none is the
   manifest, and after the rename each leads to the file written for it.
   */
  ghost predicate Safe(ps: seq<Place>) {
    Straight(ps) && Distinct(Mades(ps)) && ManifestAt() !in Mades(ps)
  }

  ghost predicate AlwaysRight(world: map<Entry, Bytes>, names: seq<Bytes>, ps: seq<Place>, lts: seq<nat>)
    requires |ps| == |lts|
  {
    forall bs | Streamable(lts, bs) :: ComesOut(After(world, names, ps, lts, bs), names, ps, lts, bs)
  }

  /** Columns read from different files. */
  lemma ReadsDiffer(world: map<Entry, Bytes>, names: seq<Bytes>, ps: seq<Place>, lts: seq<nat>, c: nat, d: nat)
    requires |ps| == |lts| && LTypes(lts) && AlwaysRight(world, names, ps, lts) && c < |ps| && d < |ps| && c != d
    ensures ps[c].read != ps[d].read
  {
    var bs := ColumnsTell(lts, if c < d then c else d, if c < d then d else c);
    assert ComesOut(After(world, names, ps, lts, bs), names, ps, lts, bs);
  }

  lemma ReadIsNotManifest(world: map<Entry, Bytes>, names: seq<Bytes>, ps: seq<Place>, lts: seq<nat>, c: nat)
    requires |ps| == |lts| == |names| && LTypes(lts) && AlwaysRight(world, names, ps, lts) && c < |ps|
    ensures ps[c].read != Some(Under(DotD()))
  {
    ManifestTells(names, lts, c);
    assert Streamable(lts, []);
    assert ComesOut(After(world, names, ps, lts, []), names, ps, lts, []);
  }

  /** A file nobody's name created holds the same after every stream. */
  lemma UntouchedIsConstant(
    world: map<Entry, Bytes>, names: seq<Bytes>, ps: seq<Place>, lts: seq<nat>, x: seq<Batch>, y: seq<Batch>, e: Entry)
    requires |ps| == |lts| && Settled(world)
    requires e in After(world, names, ps, lts, x) && e in After(world, names, ps, lts, y)
    requires forall d | 0 <= d < |ps| :: Final(ps[d].made) != Some(e)
    ensures After(world, names, ps, lts, x)[e] == After(world, names, ps, lts, y)[e]
  {
    StreamedEntries(world, names, Mades(ps), lts, x);
    StreamedEntries(world, names, Mades(ps), lts, y);
    var was := if e.Under? then Beside(e.e) else e;
    assert Final(was) == Some(e);
    RenamedKeeps(Streamed(world, names, Mades(ps), lts, x).files, was);
    RenamedKeeps(Streamed(world, names, Mades(ps), lts, y).files, was);
    assert was !in Mades(ps) by {
      assert forall d | 0 <= d < |ps| :: Mades(ps)[d] == ps[d].made;
    }
  }

  /** What a column is read from is a file some name created. */
  lemma ReadIsMade(world: map<Entry, Bytes>, names: seq<Bytes>, ps: seq<Place>, lts: seq<nat>, c: nat) returns (d: nat)
    requires |ps| == |lts| && LTypes(lts) && Settled(world) && AlwaysRight(world, names, ps, lts) && c < |ps|
    ensures d < |ps| && ps[c].read.Some? && ps[c].read == Final(ps[d].made)
  {
    RowTells(lts, c);
    var x, y: seq<Batch> := [], [OneRow(lts, c)];
    assert ComesOut(After(world, names, ps, lts, x), names, ps, lts, x);
    assert ComesOut(After(world, names, ps, lts, y), names, ps, lts, y);
    if forall d | 0 <= d < |ps| :: Final(ps[d].made) != ps[c].read {
      UntouchedIsConstant(world, names, ps, lts, x, y, ps[c].read.value);
      assert false;
    }
    d :| 0 <= d < |ps| && Final(ps[d].made) == ps[c].read;
  }

  /** For each column, the one whose file its name leads to. */
  lemma {:induction false} Sources(world: map<Entry, Bytes>, names: seq<Bytes>, ps: seq<Place>, lts: seq<nat>, m: nat)
    returns (of: seq<nat>)
    requires |ps| == |lts| && LTypes(lts) && Settled(world) && AlwaysRight(world, names, ps, lts) && m <= |ps|
    ensures |of| == m && forall c | 0 <= c < m :: of[c] < |ps| && ps[c].read.Some? && ps[c].read == Final(ps[of[c]].made)
  {
    if m == 0 {
      of := [];
    } else {
      of := Sources(world, names, ps, lts, m - 1);
      var d := ReadIsMade(world, names, ps, lts, m - 1);
      of := of + [d];
    }
  }

  /** Every file created is read as some column. */
  lemma EveryFileIsRead(world: map<Entry, Bytes>, names: seq<Bytes>, ps: seq<Place>, lts: seq<nat>, of: seq<nat>, i: nat)
    returns (c: nat)
    requires |ps| == |lts| && LTypes(lts) && AlwaysRight(world, names, ps, lts) && i < |ps| == |of|
    requires forall c | 0 <= c < |ps| :: of[c] < |ps| && ps[c].read == Final(ps[of[c]].made)
    ensures c < |ps| && of[c] == i
  {
    forall c, d | 0 <= c < d < |of|
      ensures of[c] != of[d]
    {
      ReadsDiffer(world, names, ps, lts, c, d);
    }
    Pigeonhole(of, i);
    c :| 0 <= c < |of| && of[c] == i;
  }

  lemma FilesAreOwn(world: map<Entry, Bytes>, names: seq<Bytes>, ps: seq<Place>, lts: seq<nat>, of: seq<nat>)
    requires |ps| == |lts| == |names| && LTypes(lts) && AlwaysRight(world, names, ps, lts) && |ps| == |of|
    requires forall c | 0 <= c < |ps| :: of[c] < |ps| && ps[c].read.Some? && ps[c].read == Final(ps[of[c]].made)
    ensures Distinct(Mades(ps)) && ManifestAt() !in Mades(ps)
    ensures forall i | 0 <= i < |ps| :: Final(ps[i].made).Some?
  {
    forall i, j | 0 <= i < j < |ps|
      ensures Mades(ps)[i] != Mades(ps)[j]
    {
      var c := EveryFileIsRead(world, names, ps, lts, of, i);
      var d := EveryFileIsRead(world, names, ps, lts, of, j);
      ReadsDiffer(world, names, ps, lts, c, d);
    }
    forall i | 0 <= i < |ps|
      ensures Mades(ps)[i] != ManifestAt() && Final(ps[i].made).Some?
    {
      var c := EveryFileIsRead(world, names, ps, lts, of, i);
      ReadIsNotManifest(world, names, ps, lts, c);
    }
  }

  /** ... as the column it was written for. */
  lemma ReadsItsOwn(world: map<Entry, Bytes>, names: seq<Bytes>, ps: seq<Place>, lts: seq<nat>, c: nat, d: nat)
    requires |ps| == |lts| && LTypes(lts) && AlwaysRight(world, names, ps, lts)
    requires forall i | 0 <= i < |names| :: 0 !in names[i]
    requires Distinct(Mades(ps)) && ManifestAt() !in Mades(ps)
    requires c < |ps| && d < |ps| && ps[c].read.Some? && ps[c].read == Final(ps[d].made)
    ensures c == d
  {
    if c != d {
      var bs := ColumnsTell(lts, if c < d then c else d, if c < d then d else c);
      assert ComesOut(After(world, names, ps, lts, bs), names, ps, lts, bs);
      NoClashMeansRight(world, names, Mades(ps), lts, bs);
      assert Mades(ps)[d] == ps[d].made;
      RenamedKeeps(Streamed(world, names, Mades(ps), lts, bs).files, ps[d].made);
      assert false;
    }
  }

  /** Whatever else lies on the disk, every table comes out right exactly when its names are safe. */
  lemma NamesSafe(world: map<Entry, Bytes>, names: seq<Bytes>, ps: seq<Place>, lts: seq<nat>)
    requires |ps| == |lts| == |names| && LTypes(lts) && Settled(world)
    requires forall i | 0 <= i < |names| :: 0 !in names[i]
    ensures AlwaysRight(world, names, ps, lts) <==> Safe(ps)
  {
    if Safe(ps) {
      forall bs | Streamable(lts, bs)
        ensures ComesOut(After(world, names, ps, lts, bs), names, ps, lts, bs)
      {
        StraightExact(world, names, ps, lts, bs);
      }
    } else if AlwaysRight(world, names, ps, lts) {
      var of := Sources(world, names, ps, lts, |ps|);
      FilesAreOwn(world, names, ps, lts, of);
      forall c | 0 <= c < |ps|
        ensures ps[c].read == Final(ps[c].made)
      {
        ReadsItsOwn(world, names, ps, lts, c, of[c]);
      }
      assert false;
    }
  }

  function Members(s: seq<nat>): (r: set<nat>)
    ensures forall x :: x in r <==> x in s
  {
    set x | x in s
  }

  lemma {:induction false} SetOfSize(s: seq<nat>)
    requires Distinct(s)
    ensures |Members(s)| == |s|
  {
    if s != [] {
      var n := |s| - 1;
      var before := s[..n];
      SetOfSize(before);
      assert s == before + [s[n]];
      assert s[n] !in before;
      assert Members(s) == Members(before) + {s[n]};
    }
  }

  function Range(n: nat): (r: set<nat>)
    ensures forall x: nat :: x in r <==> x < n
    ensures |r| == n
  {
    if n == 0 then {} else Range(n - 1) + {n - 1}
  }

  lemma {:induction false} SubsetSize(a: set<nat>, b: set<nat>)
    requires a <= b
    ensures |a| <= |b|
  {
    if a != {} {
      var x :| x in a;
      SubsetSize(a - {x}, b - {x});
    }
  }

  /** As many different numbers below n as there are leave none out. */
  lemma Pigeonhole(s: seq<nat>, i: nat)
    requires Distinct(s) && Below(s, |s|) && i < |s|
    ensures i in s
  {
    if i !in s {
      SetOfSize(s);
      SubsetSize(Members(s), Range(|s|) - {i});
      assert false;
    }
  }

  /** Plain names that the system takes are safe exactly when they are distinct and none is `.d`. */
  lemma PlainNamesSafe(sys: Resolver, names: seq<Bytes>)
    requires KeepsPlain(sys) && Accepted(sys, names) && forall c | 0 <= c < |names| :: 47 !in names[c]
    ensures Safe(Places(sys, names)) <==> Distinct(names) && DotD() !in names
  {
    var ps := Places(sys, names);
    assert forall c | 0 <= c < |names| :: ps[c] == Place(Beside(names[c]), Some(Under(names[c])));
    assert forall c | 0 <= c < |names| :: Mades(ps)[c] == Beside(names[c]);
  }

  /** ... and never lead into the table that is there, however far the stream gets. */
  lemma PlainNamesStayInside(sys: Resolver, names: seq<Bytes>)
    requires KeepsPlain(sys) && forall c | 0 <= c < |names| :: 47 !in names[c]
    ensures !LeadsIn(Taken(MadeOf(sys, names)))
  {
    var at := Taken(MadeOf(sys, names));
    forall c | 0 <= c < |at|
      ensures !at[c].Under?
    {
      assert MadeOf(sys, names)[c] == Some(at[c]);
    }
  }

  // ---- the table that was there ----

  /** The same files under the target's name. */
  ghost predicate SameTable(was: map<Entry, Bytes>, now: map<Entry, Bytes>) {
    forall x :: (Under(x) in was <==> Under(x) in now) && (Under(x) in was ==> was[Under(x)] == now[Under(x)])
  }

  ghost predicate LeadsIn(at: seq<Entry>) {
    exists c :: 0 <= c < |at| && at[c].Under?
  }

  lemma StopLeavesTable(world: map<Entry, Bytes>, names: seq<Bytes>, made: seq<Option<Entry>>, lts: seq<nat>, bs: seq<Batch>)
    requires |made| == |lts| && AllAgree(lts, bs) && !LeadsIn(Taken(made))
    ensures SameTable(world, Dropped(Stopped(world, names, made, lts, bs).files))
  {
    StoppedEntries(world, names, made, lts, bs);
    assert forall x :: Under(x) !in Taken(made);
  }

  /** A stream that stops leaves every table alone exactly when no column created before leads into it. */
  lemma StopSafe(names: seq<Bytes>, made: seq<Option<Entry>>, lts: seq<nat>, bs: seq<Batch>)
    requires |made| == |lts| && AllAgree(lts, bs)
    ensures (forall world | Settled(world) :: SameTable(world, Dropped(Stopped(world, names, made, lts, bs).files)))
            <==> !LeadsIn(Taken(made))
  {
    if LeadsIn(Taken(made)) {
      var c :| 0 <= c < |Taken(made)| && Taken(made)[c].Under?;
      var none: map<Entry, Bytes> := map[];
      StoppedEntries(none, names, made, lts, bs);
      assert Settled(none) && Under(Taken(made)[c].e) !in none;
      assert Taken(made)[c] in Dropped(Stopped(none, names, made, lts, bs).files);
    } else {
      forall world | Settled(world)
        ensures SameTable(world, Dropped(Stopped(world, names, made, lts, bs).files))
      {
        StopLeavesTable(world, names, made, lts, bs);
      }
    }
  }

  // ---- everything else on the disk ----

  /** Files outside the table, but for those at `at`, are as they were. */
  ghost predicate SameOutside(was: map<Entry, Bytes>, now: map<Entry, Bytes>, at: seq<Entry>) {
    forall x | Outside(x) !in at ::
      (Outside(x) in was <==> Outside(x) in now) && (Outside(x) in was ==> was[Outside(x)] == now[Outside(x)])
  }

  /** A stream that stops touches no file but those its columns led to ... */
  lemma StopSparesOthers(world: map<Entry, Bytes>, names: seq<Bytes>, made: seq<Option<Entry>>, lts: seq<nat>, bs: seq<Batch>)
    requires |made| == |lts| && AllAgree(lts, bs)
    ensures var now := Dropped(Stopped(world, names, made, lts, bs).files);
            SameOutside(world, now, Taken(made)) && Settled(now)
  {
    StoppedEntries(world, names, made, lts, bs);
  }

  /** ... nor does a whole one, whose failed rename leaves no table behind. */
  lemma StreamSparesOthers(world: map<Entry, Bytes>, names: seq<Bytes>, at: seq<Entry>, lts: seq<nat>, bs: seq<Batch>)
    requires |at| == |lts|
    ensures var files := Streamed(world, names, at, lts, bs).files;
            && SameOutside(world, Renamed(files), at) && SameOutside(world, Emptied(files), at)
            && Settled(Renamed(files)) && forall e | e in Emptied(files) :: e.Outside?
  {
    StreamedEntries(world, names, at, lts, bs);
  }

  // ---- the names that fail ----

  /** Names the system keeps as they are, repeated ones and `.d` included, are all accepted. */
  lemma AcceptedAsIs(sys: Resolver, names: seq<Bytes>)
    requires forall n | n in names :: sys(n) == Some(Place(Beside(n), Some(Under(n))))
    ensures Accepted(sys, names) && forall c | 0 <= c < |names| :: Mades(Places(sys, names))[c] == Beside(names[c])
  {
    forall c | 0 <= c < |names|
      ensures sys(names[c]) == Some(Place(Beside(names[c]), Some(Under(names[c]))))
    {
      assert names[c] in names;
    }
  }

  function Plain(n: Bytes): Place {
    Place(Beside(n), Some(Under(n)))
  }

  /** Two columns of longs called `a`, holding one row of 0 and of 1: the second file takes the first one's place. */
  lemma SecondColumnTakesTheFile(world: map<Entry, Bytes>)
    ensures var names, ps, lts := [[97], [97]], [Plain([97]), Plain([97])], [7, 7];
            && Streamable(lts, [OneRow(lts, 1)])
            && !ComesOut(After(world, names, ps, lts, [OneRow(lts, 1)]), names, ps, lts, [OneRow(lts, 1)])
  {
    var lts: seq<nat> := [7, 7];
    var bs := ColumnsTell(lts, 0, 1);
  }

  /** A column called `.d` takes the manifest's file. */
  lemma ColumnTakesTheManifest(world: map<Entry, Bytes>, lt: nat)
    requires LType(lt)
    ensures !ComesOut(After(world, [DotD()], [Plain(DotD())], [lt], []), [DotD()], [Plain(DotD())], [lt], [])
  {
    ManifestTells([DotD()], [lt], 0);
  }

  /** A column of the stream to `t` called `../t/a`: its file is made in the table that is then removed. */
  lemma ColumnGoesWithTheOldTable(world: map<Entry, Bytes>, lt: nat, bs: seq<Batch>)
    requires Settled(world) && LType(lt) && Streamable([lt], bs)
    ensures var ps := [Place(Under([97]), Some(Under([97])))];
            !ComesOut(After(world, [[46, 46, 47, 116, 47, 97]], ps, [lt], bs), [[46, 46, 47, 116, 47, 97]], ps, [lt], bs)
  {
    var names, ps := [[46, 46, 47, 116, 47, 97]], [Place(Under([97]), Some(Under([97])))];
    StreamedEntries(world, names, Mades(ps), [lt], bs);
    RenamedKeeps(Streamed(world, names, Mades(ps), [lt], bs).files, Beside([97]));
    assert Mades(ps) == [Under([97])];
  }

  /** A column of the stream to `t` called `../t/.d`, of which no batch can be converted: the old manifest is gone. */
  lemma OldManifestIsLost(world: map<Entry, Bytes>, lt: nat, rows: nat, why: string)
    requires Settled(world) && LType(lt)
    ensures var names, bs := [[46, 46, 47, 116, 47, 46, 100]], [Batch(rows, [Err(why)])];
            var files := Dropped(Stopped(world, names, [Some(Under(DotD()))], [lt], bs).files);
            Under(DotD()) in files && files[Under(DotD())] == Head(lt, 0)
  {
    var names, bs := [[46, 46, 47, 116, 47, 46, 100]], [Batch(rows, [Err(why)])];
    var made: seq<Option<Entry>> := [Some(Under(DotD()))];
    TakenIs(made, [Under(DotD())]);
    StartsWithManifest(world, names);
    var start := Started(world, names);
    assert bs[0].cols[0].Err?;
    assert !Converted(bs[0]);
    assert BadBatch(bs) == 0 && BadColumn(bs[0].cols) == 0;
    OneColumnOpened(start, Under(DotD()), lt);
  }

  lemma OneColumnOpened(fs: Fs, e: Entry, lt: nat)
    requires fs.hs == []
    ensures var r := Opened(fs, [e], Heads([lt]), 1); e in r.files && r.files[e] == Head(lt, 0)
  {
    OverEnd([], Head(lt, 0));
    assert [] + Head(lt, 0) == Head(lt, 0);
    assert Heads([lt])[0] == Head(lt, 0);
    assert Opened(fs, [e], Heads([lt]), 0) == fs;
  }

  // ---- the stream itself ----

  predicate AllTyped(types: seq<Result<nat>>) {
    forall c | 0 <= c < |types| :: types[c].Ok?
  }

  /** The type tags of a schema without an unmapped column. */
  function Tags(types: seq<Result<nat>>): (lts: seq<nat>)
    requires AllTyped(types)
    ensures |lts| == |types|
  {
    seq(|types|, c requires 0 <= c < |types| => types[c].value)
  }

  method TagsOf(types: seq<Result<nat>>) returns (lts: Option<seq<nat>>)
    ensures lts.Some? <==> AllTyped(types)
    ensures lts.Some? ==> lts.value == Tags(types)
  {
    var got: seq<nat> := [];
    for c := 0 to |types|
      invariant |got| == c && forall i | 0 <= i < c :: types[i] == Ok(got[i])
    {
      if types[c].Err? {
        return None;
      }
      got := got + [types[c].value];
    }
    lts := Some(got);
  }

  /** What lies on the disk between streams. */
  class Disk {
    var world: map<Entry, Bytes>

    constructor (world: map<Entry, Bytes>)
      ensures this.world == world
    {
      this.world := world;
    }

    /** Do the checks before the first file pass? */
    static ghost predicate Checked(types: seq<Result<nat>>, declared: seq<int>) {
      Sum(declared) <= MOST_ROWS && AllTyped(types)
    }

    /** What a stream needs of its arguments: mapped types, batches of that schema, and a system that refuses what it must. */
    static ghost predicate Fitting(sys: Resolver, names: seq<Bytes>, types: seq<Result<nat>>, bs: seq<Batch>) {
      && |names| == |types| && Refuses(sys)
      && (AllTyped(types) ==> LTypes(Tags(types)) && AllAgree(Tags(types), bs))
    }

    /**
     `stream_table`.  It fails exactly on a refused count, an unmapped column, a refused
     name, a failed conversion or a failed rename, and says what each leaves behind.
     `renamed` tells whether the last rename works.
     */
    method StreamTable(
      sys: Resolver, names: seq<Bytes>, types: seq<Result<nat>>, declared: seq<int>, bs: seq<Batch>, renamed: bool)
      returns (r: Result<nat>)
      requires Settled(world) && Fitting(sys, names, types, bs)
      modifies this
      ensures Settled(world)
      ensures r.Ok? <==> Checked(types, declared) && Accepted(sys, names) && AllConverted(bs) && renamed
      ensures !Checked(types, declared) ==> world == old(world)
      ensures Checked(types, declared) && !(Accepted(sys, names) && AllConverted(bs)) ==>
                world == Dropped(Stopped(old(world), names, MadeOf(sys, names), Tags(types), bs).files)
      ensures Checked(types, declared) && Accepted(sys, names) && AllConverted(bs) ==>
                var files := Streamed(old(world), names, Mades(Places(sys, names)), Tags(types), bs).files;
                world == if renamed then Renamed(files) else Emptied(files)
      ensures r.Ok? ==> r.value == Rows(bs)
    {
      if Sum(declared) > MOST_ROWS {
        return Err("too many rows");
      }
      var lts := TagsOf(types);
      if lts.None? {
        return Err("nyi: column type");
      }
      AcceptedIsTaken(sys, names);
      var dir := new Dir(world);
      var ok, total := Build(dir, names, MadeOf(sys, names), lts.value, bs);
      if !ok {
        world := Dropped(dir.fs.files);
        return Err("column");
      }
      if !renamed {
        world := Emptied(dir.fs.files);
        return Err("rename");
      }
      world := Renamed(dir.fs.files);
      r := Ok(total);
    }
  }

  /** What the three ends mean for the table that was there and the one that takes its place. */
  lemma StreamMeans(world: map<Entry, Bytes>, sys: Resolver, names: seq<Bytes>, lts: seq<nat>, bs: seq<Batch>)
    requires |names| == |lts| && LTypes(lts) && AllAgree(lts, bs) && Refuses(sys) && Settled(world)
    ensures !LeadsIn(Taken(MadeOf(sys, names))) ==>
              SameTable(world, Dropped(Stopped(world, names, MadeOf(sys, names), lts, bs).files))
    ensures Accepted(sys, names) && AllConverted(bs) && Safe(Places(sys, names)) ==>
              ComesOut(After(world, names, Places(sys, names), lts, bs), names, Places(sys, names), lts, bs)
    ensures Accepted(sys, names) && AllConverted(bs) ==> forall x ::
              Under(x) in After(world, names, Places(sys, names), lts, bs) <==>
              x == DotD() || Beside(x) in Mades(Places(sys, names))
  {
    if !LeadsIn(Taken(MadeOf(sys, names))) {
      StopLeavesTable(world, names, MadeOf(sys, names), lts, bs);
    }
    if Accepted(sys, names) && AllConverted(bs) {
      var ps := Places(sys, names);
      assert forall i | 0 <= i < |names| :: 0 !in names[i];
      if Safe(ps) {
        NamesSafe(world, names, ps, lts);
      }
      StreamedEntries(world, names, Mades(ps), lts, bs);
      forall x
        ensures Under(x) in After(world, names, ps, lts, bs) <==> x == DotD() || Beside(x) in Mades(ps)
      {
        RenamedKeeps(Streamed(world, names, Mades(ps), lts, bs).files, Beside(x));
      }
    }
  }
}
