/**
 Null bitmaps: `null_bits` builds one a word at a time, `each_null` visits its
 zero bits a word at a time.
 */
module Bitmaps {
  import opened Common
  import opened Words

  /** Bit i % 64 of word i / 64. */
  predicate At(words: seq<Word>, i: nat)
    requires i < 64 * |words|
  {
    words[i / 64][i % 64]
  }

  /** The bitmap says `flags`, and the unused bits of the last word are zero. */
  ghost predicate Says(words: seq<Word>, flags: seq<bool>) {
    && |words| == DivCeil(|flags|, 64)
    && forall i: nat | i < 64 * |words| :: At(words, i) == (i < |flags| && flags[i])
  }

  /** One word of validity bits for a chunk of at most 64 values, and whether any is a null. */
  method ChunkBits<T>(c: seq<T>, valid: T -> bool) returns (w: Word, nulls: bool)
    requires 0 < |c| <= 64
    ensures forall j | 0 <= j < 64 :: w[j] == (j < |c| && valid(c[j]))
    ensures nulls <==> exists j :: 0 <= j < |c| && !valid(c[j])
  {
    w := Zero();
    for i := 0 to |c|
      invariant forall j | 0 <= j < 64 :: w[j] == (j < i && valid(c[j]))
    {
      w := Or(w, Shl(FromBool(valid(c[i])), i));
    }
    var full := Shr(AllOnes(), 64 - |c|);
    nulls := w != full;
    if forall j | 0 <= j < |c| :: valid(c[j]) {
      assert w == full;
    } else {
      var j :| 0 <= j < |c| && !valid(c[j]);
      assert w[j] != full[j];
    }
  }

  ghost function Flags<T>(s: seq<T>, valid: T -> bool): seq<bool> {
    seq(|s|, i requires 0 <= i < |s| => valid(s[i]))
  }

  lemma WordAppended(bits: seq<Word>, w: Word)
    ensures forall i: nat | i < 64 * |bits| + 64 ::
              At(bits + [w], i) == if i < 64 * |bits| then At(bits, i) else w[i - 64 * |bits|]
  {
    forall i: nat | i < 64 * |bits| + 64
      ensures At(bits + [w], i) == if i < 64 * |bits| then At(bits, i) else w[i - 64 * |bits|]
    {
      if i >= 64 * |bits| {
        assert i / 64 == |bits| && i % 64 == i - 64 * |bits|;
      }
    }
  }

  /** The words so far say the flags they cover, and nothing past the last. */
  ghost predicate SaysSoFar(words: seq<Word>, flags: seq<bool>) {
    && |words| <= DivCeil(|flags|, 64)
    && forall i: nat | i < 64 * |words| :: At(words, i) == (i < |flags| && flags[i])
  }

  lemma SaysMore(words: seq<Word>, flags: seq<bool>, w: Word)
    requires SaysSoFar(words, flags) && 64 * |words| < |flags|
    requires var base := 64 * |words|;
             forall j | 0 <= j < 64 :: w[j] == (base + j < |flags| && flags[base + j])
    ensures SaysSoFar(words + [w], flags)
  {
    WordAppended(words, w);
  }

  /** Is one of the first `n` flags down? */
  ghost predicate SomeNull(flags: seq<bool>, n: nat) {
    exists i :: 0 <= i < |flags| && i < n && !flags[i]
  }

  /** None exactly when every value is valid; else the bitmap of `valid`, one pass over the values. */
  method NullBits<T>(s: seq<T>, valid: T -> bool) returns (nb: Option<seq<Word>>)
    ensures nb.None? <==> forall i | 0 <= i < |s| :: valid(s[i])
    ensures nb.Some? ==> Says(nb.value, Flags(s, valid))
  {
    var bits: seq<Word> := [];
    var nulls := false;
    ghost var flags := Flags(s, valid);
    while 64 * |bits| < |s|
      invariant SaysSoFar(bits, flags)
      invariant nulls <==> SomeNull(flags, 64 * |bits|)
      decreases |s| - 64 * |bits|
    {
      var base := 64 * |bits|;
      var c := s[base..Min(base + 64, |s|)];
      var w, bad := ChunkBits(c, valid);
      ChunkNulls(s, valid, base, c, bad);
      SaysMore(bits, flags, w);
      bits := bits + [w];
      nulls := nulls || bad;
    }
    nb := if nulls then Some(bits) else None;
    NullsExact(s, valid, 64 * |bits|);
  }

  lemma NullsExact<T>(s: seq<T>, valid: T -> bool, n: nat)
    requires n >= |s|
    ensures SomeNull(Flags(s, valid), n) <==> !(forall i | 0 <= i < |s| :: valid(s[i]))
  {
    var flags := Flags(s, valid);
    if i :| 0 <= i < |s| && !valid(s[i]) {
      assert !flags[i];
    }
  }

  lemma ChunkNulls<T>(s: seq<T>, valid: T -> bool, base: nat, c: seq<T>, bad: bool)
    requires base <= |s| && c == s[base..Min(base + 64, |s|)]
    requires bad <==> exists j :: 0 <= j < |c| && !valid(c[j])
    ensures SomeNull(Flags(s, valid), base + 64) <==> SomeNull(Flags(s, valid), base) || bad
  {
    var flags := Flags(s, valid);
    if bad {
      var j :| 0 <= j < |c| && !valid(c[j]);
      assert !flags[base + j];
    }
    if i :| 0 <= i < |flags| && base <= i < base + 64 && !flags[i] {
      assert !valid(c[i - base]);
    }
  }

  /** The first `len` bits of a bitmap. */
  ghost function Read(words: seq<Word>, len: nat): seq<bool>
    requires len <= 64 * |words|
  {
    seq(len, i requires 0 <= i < len => At(words, i))
  }

  /** `seen` lists, in order and once each, the nulls among the first `upto` rows and some of the next. */
  ghost predicate Scanned(seen: seq<nat>, flags: seq<bool>, upto: nat) {
    && Strict(seen) && Below(seen, upto)
    && forall i: nat | i < upto :: i in seen <==> i < |flags| && !flags[i]
  }

  lemma AppendLater(seen: seq<nat>, x: nat)
    requires Strict(seen) && Below(seen, x)
    ensures Strict(seen + [x]) && Below(seen + [x], x + 1)
    ensures forall i: nat :: i in seen + [x] <==> i in seen || i == x
  {}

  /** Visit the set bits of `w`, lowest first, clearing each as it is visited. */
  method VisitSet(before: seq<nat>, base: nat, w: Word) returns (seen: seq<nat>)
    requires Strict(before) && Below(before, base)
    ensures Strict(seen) && Below(seen, base + 64)
    ensures forall i: nat | i < base :: i in seen <==> i in before
    ensures forall i: nat | base <= i < base + 64 :: i in seen <==> w[i - base]
  {
    seen := before;
    var inv := w;
    while NonZero(inv)
      invariant Strict(seen) && Below(seen, base + 64)
      invariant forall i: nat | i < base :: i in seen <==> i in before
      invariant forall j | 0 <= j < 64 && inv[j] :: w[j] && Below(seen, base + j)
      invariant forall i: nat | base <= i < base + 64 :: i in seen <==> w[i - base] && !inv[i - base]
      decreases Ones(inv)
    {
      var t := Ctz(inv);
      AppendLater(seen, base + t);
      ClearLowest(inv);
      ClearDrops(inv, t);
      seen := seen + [base + t];
      inv := And(inv, Dec(inv));
    }
  }

  /**
   `each_null` over the first `len` bits of a bitmap whose last word may carry
   anything past them: every null row is visited, once, in increasing order.
   */
  method EachNull(words: seq<Word>, len: nat) returns (seen: seq<nat>)
    requires DivCeil(len, 64) <= |words|
    ensures len <= 64 * |words|
    ensures Scanned(seen, Read(words, len), len)
  {
    seen := [];
    var base := 0;
    for k := 0 to len / 64
      invariant base == 64 * k
      invariant Strict(seen) && Below(seen, base)
      invariant forall i: nat | i < base :: i in seen <==> !At(words, i)
    {
      ghost var was := seen;
      seen := VisitSet(seen, base, Not(words[k]));
      forall i: nat | base <= i < base + 64
        ensures i in seen <==> !At(words, i)
      {
        assert i / 64 == k && i % 64 == i - base;
      }
      base := base + 64;
    }
    var rl := len % 64;
    if rl > 0 {
      LowMask(rl);
      var last := And(Not(words[len / 64]), Dec(Shl(FromBool(true), rl)));
      seen := VisitSet(seen, base, last);
      forall i: nat | base <= i < len
        ensures i in seen <==> !At(words, i)
      {
        assert i / 64 == len / 64 && i % 64 == i - base;
      }
      assert forall j | rl <= j < 64 :: !last[j];
      StaysBelow(seen, base, last, rl);
    }
  }

  /** The visitor every reader passes to `each_null`: overwrite the null rows. */
  method Blank<T>(seen: seq<nat>, empty: T, d: array<T>, off: nat, n: nat)
    requires off + n <= d.Length && Below(seen, n)
    modifies d
    ensures forall j | off <= j < off + n :: d[j] == if j - off in seen then empty else old(d[j])
    ensures forall j | 0 <= j < d.Length && !(off <= j < off + n) :: d[j] == old(d[j])
  {
    for x := 0 to |seen|
      invariant forall j | off <= j < off + n :: d[j] == if j - off in seen[..x] then empty else old(d[j])
      invariant forall j | 0 <= j < d.Length && !(off <= j < off + n) :: d[j] == old(d[j])
    {
      d[off + seen[x]] := empty;
      assert seen[..x + 1] == seen[..x] + [seen[x]];
    }
    assert seen[..|seen|] == seen;
  }

  lemma StaysBelow(seen: seq<nat>, base: nat, w: Word, rl: nat)
    requires rl < 64 && Below(seen, base + 64)
    requires forall j | rl <= j < 64 :: !w[j]
    requires forall i: nat | base <= i < base + 64 :: i in seen <==> w[i - base]
    ensures Below(seen, base + rl)
  {
    forall k | 0 <= k < |seen|
      ensures seen[k] < base + rl
    {
      assert seen[k] in seen;
    }
  }

  lemma InitMembers(a: seq<nat>)
    requires Strict(a) && a != []
    ensures var m := |a| - 1; forall x: nat :: x in a[..m] <==> x in a && x != a[m]
  {}

  /** Strictly increasing lists with the same members are one list. */
  lemma {:induction false} StrictUnique(a: seq<nat>, b: seq<nat>)
    requires Strict(a) && Strict(b) && forall x: nat :: x in a <==> x in b
    ensures a == b
  {
    assert (a == [] || a[0] in a) && (b == [] || b[0] in b);
    if a != [] && b != [] {
      var m, n := |a| - 1, |b| - 1;
      assert a[m] in b && b[n] in a;
      assert a[m] == b[n];
      InitMembers(a);
      InitMembers(b);
      StrictUnique(a[..m], b[..n]);
    }
  }

  /** Writing a bitmap and scanning it back visits exactly the rows `valid` rejects, in order, for every length. */
  method ScanWritten<T>(s: seq<T>, valid: T -> bool) returns (seen: seq<nat>)
    ensures seen == Positions(Flags(s, valid), false)
  {
    var nb := NullBits(s, valid);
    PositionsExact(Flags(s, valid), false);
    if nb.None? {
      seen := [];
      assert forall p: nat :: p !in Positions(Flags(s, valid), false);
      StrictUnique(seen, Positions(Flags(s, valid), false));
    } else {
      seen := EachNull(nb.value, |s|);
      assert Read(nb.value, |s|) == Flags(s, valid);
      assert forall p: nat | p in seen :: p < |s|;
      StrictUnique(seen, Positions(Flags(s, valid), false));
    }
  }
}
