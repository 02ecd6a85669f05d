/**
 Resolving a projection against a set of files: names to columns, and which columns
 every file stores in one and the same flat form.
 */
module Select {
  import opened Common
  import opened Layout

  /** How a column decodes straight into K; the unit scale is part of the answer. */
  datatype Raw = I32 | I64(mul: int) | F32 | F64

  /** The one leaf of a file's column: its direct form, if any, and its repetition level. */
  datatype Leaf = Leaf(raw: Option<Raw>, rep: nat)

  /** Names and L types agreed by every file, and each file's leaf for each column. */
  datatype Set = Set(names: seq<string>, lts: seq<Result<int>>, files: seq<seq<Option<Leaf>>>)

  datatype Sel = Sel(out: seq<nat>, lts: seq<int>, uniq: seq<nat>, raw: seq<Option<Raw>>)

  ghost predicate Valid(s: Set) {
    |s.lts| == |s.names| && forall f | 0 <= f < |s.files| :: |s.files[f]| == |s.names|
  }

  /** `position`: the first column of the name. */
  function FirstAt(names: seq<string>, n: string): (i: Option<nat>)
    ensures i.None? <==> n !in names
    ensures i.Some? ==> i.value < |names| && names[i.value] == n && n !in names[..i.value]
  {
    if names == [] then None
    else if names[0] == n then Some(0)
    else
      var r := FirstAt(names[1..], n);
      assert names == [names[0]] + names[1..];
      if r.None? then None
      else
        assert names[..r.value + 1] == [names[0]] + names[1..][..r.value];
        Some(r.value + 1)
  }

  // ---- duplicates ----

  function Dedup(s: seq<nat>): (r: seq<nat>)
    ensures |r| <= |s| && (s != [] ==> r != [] && r[0] == s[0])
  {
    if |s| < 2 then s
    else if s[0] == s[1] then Dedup(s[1..])
    else [s[0]] + Dedup(s[1..])
  }

  ghost predicate Ascending(s: seq<nat>) {
    forall i, j | 0 <= i < j < |s| :: s[i] <= s[j]
  }

  lemma {:induction false} InsertAscends(x: nat, s: seq<nat>)
    requires Ascending(s)
    ensures Ascending(Insert(x, s))
  {
    if s != [] && x > s[0] {
      InsertAscends(x, s[1..]);
      var rest := Insert(x, s[1..]);
      forall i | 0 <= i < |rest|
        ensures s[0] <= rest[i]
      {
        InsertKeeps(x, s[1..], rest[i]);
      }
    }
  }

  lemma {:induction false} SortedAscends(s: seq<nat>)
    ensures Ascending(Sorted(s))
  {
    if s != [] {
      SortedAscends(s[1..]);
      InsertAscends(s[0], Sorted(s[1..]));
    }
  }

  lemma {:induction false} DedupShortens(s: seq<nat>)
    requires Ascending(s)
    ensures |Dedup(s)| == |s| <==> Strict(s)
    ensures Strict(s) ==> Dedup(s) == s
  {
    if |s| >= 2 {
      DedupShortens(s[1..]);
      if s[0] < s[1] {
        assert Strict(s[1..]) ==> forall j | 1 <= j < |s| :: s[0] < s[j];
        assert forall i | 0 <= i < |s| - 1 :: s[1..][i] == s[i + 1];
        assert Strict(s) ==> Strict(s[1..]);
      }
    }
  }

  lemma {:induction false} StrictInsert(x: nat, s: seq<nat>)
    requires Strict(Insert(x, s))
    ensures Strict(s) && x !in s
  {
    var r := Insert(x, s);
    if s == [] || x <= s[0] {
      forall i, j | 0 <= i < j < |s|
        ensures s[i] < s[j]
      {
        assert r[i + 1] == s[i] && r[j + 1] == s[j];
      }
      forall i | 0 <= i < |s|
        ensures x < s[i]
      {
        assert r[0] == x && r[i + 1] == s[i];
      }
    } else {
      var rest := Insert(x, s[1..]);
      assert forall i | 0 <= i < |rest| :: rest[i] == r[i + 1];
      StrictInsert(x, s[1..]);
      forall i | 1 <= i < |s|
        ensures s[0] < s[i]
      {
        InsertKeeps(x, s[1..], s[i]);
        assert s[i] in s[1..];
        var j :| 0 <= j < |rest| && rest[j] == s[i];
        assert r[0] < r[j + 1];
      }
    }
  }

  /** Sorting and dropping repeats shortens a projection exactly when it names a column twice. */
  lemma {:induction false} RepeatsDetected(s: seq<nat>)
    ensures |Dedup(Sorted(s))| == |s| <==> Distinct(s)
    ensures Distinct(s) ==> Dedup(Sorted(s)) == Sorted(s)
  {
    SortedAscends(s);
    DedupShortens(Sorted(s));
    if Distinct(s) {
      SortedStrict(s);
    } else if Strict(Sorted(s)) {
      StrictMeansDistinct(s);
    }
  }

  lemma {:induction false} StrictMeansDistinct(s: seq<nat>)
    requires Strict(Sorted(s))
    ensures Distinct(s)
  {
    if s != [] {
      StrictInsert(s[0], Sorted(s[1..]));
      StrictMeansDistinct(s[1..]);
      SortedKeeps(s[1..], s[0]);
      forall i, j | 0 <= i < j < |s|
        ensures s[i] != s[j]
      {
        assert s[j] == s[1..][j - 1];
        if i > 0 {
          assert s[i] == s[1..][i - 1];
        }
      }
    }
  }

  // ---- one form for every file ----

  /** Flat, and in this very form, in every file. */
  ghost predicate StoredAs(leaves: seq<Option<Leaf>>, x: Raw) {
    forall i | 0 <= i < |leaves| :: leaves[i] == Some(Leaf(Some(x), 0))
  }

  /** Every file stores the column as `first` does: in a direct form, and flat. */
  ghost predicate Uniform(leaves: seq<Option<Leaf>>, first: Option<Leaf>) {
    && first.Some? && first.value.raw.Some? && first.value.rep == 0
    && forall i | 0 <= i < |leaves| :: leaves[i] == first
  }

  lemma UniformExact(leaves: seq<Option<Leaf>>)
    requires leaves != []
    ensures Uniform(leaves, leaves[0]) <==> exists x :: StoredAs(leaves, x)
  {
    if Uniform(leaves, leaves[0]) {
      assert StoredAs(leaves, leaves[0].value.raw.value);
    }
  }

  method Agree(leaves: seq<Option<Leaf>>) returns (r: Option<Raw>)
    ensures forall x :: r == Some(x) <==> leaves != [] && StoredAs(leaves, x)
    ensures r.Some? <==> leaves != [] && Uniform(leaves, leaves[0])
  {
    r := None;
    for i := 0 to |leaves|
      invariant forall x :: r == Some(x) <==> i > 0 && StoredAs(leaves[..i], x)
      invariant r.None? && i > 0 ==> forall x :: !StoredAs(leaves[..i], x)
    {
      ghost var was := r;
      assert leaves[..i + 1] == leaves[..i] + [leaves[i]];
      assert forall x :: StoredAs(leaves[..i + 1], x) <==> StoredAs(leaves[..i], x) && leaves[i] == Some(Leaf(Some(x), 0));
      if leaves[i].None? {
        assert leaves[i] == leaves[..i + 1][i];
        assert forall x :: StoredAs(leaves, x) ==> leaves[i] == Some(Leaf(Some(x), 0));
        UniformExact(leaves);
        return None;
      }
      var ri := leaves[i].value.raw;
      r := if i == 0 || ri == r then ri else None;
      if leaves[i].value.rep != 0 {
        r := None;
      }
    }
    assert leaves[..|leaves|] == leaves;
    if leaves != [] {
      UniformExact(leaves);
      assert forall x :: r == Some(x) <==> StoredAs(leaves, x);
    }
  }

  /** Column `c` of every file. */
  function LeavesOf(s: Set, c: nat): seq<Option<Leaf>>
    requires Valid(s) && c < |s.names|
  {
    seq(|s.files|, f requires 0 <= f < |s.files| => s.files[f][c])
  }

  // ---- the projection ----

  function Wanted(s: Set, want: Option<seq<string>>): seq<string> {
    if want.None? then s.names else want.value
  }

  /** `out` holds the file columns of the wanted names. */
  ghost predicate Resolved(s: Set, want: Option<seq<string>>, out: seq<nat>) {
    && Below(out, |s.names|) && |out| == |Wanted(s, want)|
    && forall p | 0 <= p < |out| ::
         if want.None? then out[p] == p else FirstAt(s.names, want.value[p]) == Some(out[p])
  }

  /** File columns of the wanted names. */
  method Resolve(s: Set, want: Option<seq<string>>) returns (out: Option<seq<nat>>)
    ensures out.Some? <==> want.None? || forall n | n in want.value :: n in s.names
    ensures out.Some? ==> Resolved(s, want, out.value)
  {
    if want.None? {
      return Some(seq(|s.names|, i => i));
    }
    var ps: seq<nat> := [];
    for i := 0 to |want.value|
      invariant |ps| == i && Below(ps, |s.names|)
      invariant forall p | 0 <= p < i :: FirstAt(s.names, want.value[p]) == Some(ps[p])
      invariant forall n | n in want.value[..i] :: n in s.names
    {
      var at := FirstAt(s.names, want.value[i]);
      if at.None? {
        return None;
      }
      assert want.value[..i + 1] == want.value[..i] + [want.value[i]];
      ps := ps + [at.value];
    }
    assert want.value[..|want.value|] == want.value;
    out := Some(ps);
  }

  method Types(s: Set, out: seq<nat>) returns (lts: Option<seq<int>>)
    requires Valid(s) && Below(out, |s.names|)
    ensures lts.Some? <==> forall p | 0 <= p < |out| :: s.lts[out[p]].Ok?
    ensures lts.Some? ==> |lts.value| == |out| && forall p | 0 <= p < |out| :: s.lts[out[p]] == Ok(lts.value[p])
  {
    var ts: seq<int> := [];
    for i := 0 to |out|
      invariant |ts| == i && forall p | 0 <= p < i :: s.lts[out[p]] == Ok(ts[p])
    {
      if s.lts[out[i]].Err? {
        return None;
      }
      ts := ts + [s.lts[out[i]].value];
    }
    lts := Some(ts);
  }

  lemma OncePerName(names: seq<string>, want: seq<string>, out: seq<nat>)
    requires |out| == |want| && forall p | 0 <= p < |want| :: FirstAt(names, want[p]) == Some(out[p])
    ensures Distinct(out) <==> Distinct(want)
  {
    forall i, j | 0 <= i < j < |want|
      ensures out[i] == out[j] <==> want[i] == want[j]
    {
      assert names[out[i]] == want[i] && names[out[j]] == want[j];
    }
  }

  ghost predicate Selectable(s: Set, want: Option<seq<string>>)
    requires Valid(s)
  {
    match want
    case None => forall c | 0 <= c < |s.names| :: s.lts[c].Ok?
    case Some(ns) => Distinct(ns) && forall n | n in ns :: n in s.names && s.lts[FirstAt(s.names, n).value].Ok?
  }

  lemma ResolvedSelectable(s: Set, want: Option<seq<string>>, out: seq<nat>)
    requires Valid(s) && Resolved(s, want, out)
    ensures Selectable(s, want) <==> Distinct(out) && forall p | 0 <= p < |out| :: s.lts[out[p]].Ok?
  {
    if want.None? {
      assert forall c {:trigger s.lts[c]} | 0 <= c < |s.names| :: out[c] == c;
      assert forall c {:trigger out[c]} | 0 <= c < |out| :: s.lts[out[c]] == s.lts[c];
    } else {
      var ns := want.value;
      OncePerName(s.names, ns, out);
      forall p | 0 <= p < |out|
        ensures ns[p] in s.names && FirstAt(s.names, ns[p]) == Some(out[p])
      {
        assert FirstAt(s.names, ns[p]) == Some(out[p]);
      }
      if forall n | n in ns :: n in s.names && s.lts[FirstAt(s.names, n).value].Ok? {
        forall p | 0 <= p < |out|
          ensures s.lts[out[p]].Ok?
        {
          assert ns[p] in ns;
        }
      }
    }
  }

  /** The form of each projected column. */
  ghost predicate FormsRight(s: Set, out: seq<nat>, raw: seq<Option<Raw>>)
    requires Valid(s) && Below(out, |s.names|) && |raw| <= |out|
  {
    forall p, w | 0 <= p < |raw| :: raw[p] == Some(w) <==> s.files != [] && StoredAs(LeavesOf(s, out[p]), w)
  }

  method Forms(s: Set, out: seq<nat>) returns (raw: seq<Option<Raw>>)
    requires Valid(s) && Below(out, |s.names|)
    ensures |raw| == |out| && FormsRight(s, out, raw)
  {
    raw := [];
    for p := 0 to |out|
      invariant |raw| == p && FormsRight(s, out, raw)
    {
      var a := Agree(LeavesOf(s, out[p]));
      raw := raw + [a];
    }
  }

  /** The sorted projection without repeats, or None when it repeats a column. */
  method Unrepeated(out: seq<nat>) returns (uniq: Option<seq<nat>>)
    ensures uniq.Some? <==> Distinct(out)
    ensures uniq.Some? ==> Strict(uniq.value) && forall c: nat :: c in uniq.value <==> c in out
  {
    RepeatsDetected(out);
    var u := Dedup(Sorted(out));
    if |u| != |out| {
      return None;
    }
    SortedStrict(out);
    forall c: nat
      ensures c in u <==> c in out
    {
      SortedKeeps(out, c);
    }
    uniq := Some(u);
  }

  /** A resolved projection. */
  ghost predicate Chosen(s: Set, want: Option<seq<string>>, x: Sel)
    requires Valid(s)
  {
    && |x.out| == |x.lts| == |x.raw| == |Wanted(s, want)|
    && Below(x.out, |s.names|) && Distinct(x.out) && Strict(x.uniq)
    && (forall c: nat :: c in x.uniq <==> c in x.out)
    && (forall p | 0 <= p < |x.out| ::
          s.names[x.out[p]] == Wanted(s, want)[p] && s.lts[x.out[p]] == Ok(x.lts[p]))
    && FormsRight(s, x.out, x.raw)
  }

  /**
   `select`: refused exactly when a name is missing, a wanted column has no L type,
   or a column is asked for twice; and zero-copy exactly where every file agrees.
   */
  method Choose(s: Set, want: Option<seq<string>>) returns (r: Result<Sel>)
    requires Valid(s)
    ensures r.Ok? <==> Selectable(s, want)
    ensures r.Ok? ==> Chosen(s, want, r.value)
  {
    var found := Resolve(s, want);
    if found.None? {
      return Err("no column");
    }
    var out := found.value;
    ResolvedSelectable(s, want, out);
    var lts := Types(s, out);
    if lts.None? {
      return Err("nyi: column type");
    }
    var uniq := Unrepeated(out);
    if uniq.None? {
      return Err("duplicate column");
    }
    var raw := Forms(s, out);
    r := Ok(Sel(out, lts.value, uniq.value, raw));
  }
}
