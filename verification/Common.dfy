/** Small vocabulary shared by every module of the model. */
module Common {

  datatype Option<+T> = None | Some(value: T)

  datatype Result<+T> = Ok(value: T) | Err(error: string)

  /** One byte of a file, a dictionary page or a symbol. */
  type Byte = x: int | 0 <= x < 256

  type Bytes = seq<Byte>

  function Min(a: int, b: int): int {
    if a <= b then a else b
  }

  function Max(a: int, b: int): int {
    if a <= b then b else a
  }

  /** The smallest number of pieces of size `b` that cover `a` things. */
  function DivCeil(a: nat, b: nat): nat
    requires b > 0
  {
    (a + b - 1) / b
  }

  function Sum(ns: seq<int>): int {
    if ns == [] then 0 else Sum(ns[..|ns| - 1]) + ns[|ns| - 1]
  }

  ghost predicate Distinct<K>(ks: seq<K>) {
    forall i, j | 0 <= i < j < |ks| :: ks[i] != ks[j]
  }

  // ---- products and quotients ----

  lemma SmallMultiple(x: int, k: int)
    requires -k < x * k < k
    ensures x == 0
  {}

  lemma MulMono(a: nat, b: nat, n: nat)
    requires a <= b
    ensures a * n <= b * n
  {}

  lemma DivModUnique(n: nat, m: nat, q: nat, r: nat)
    requires r < m && n == q * m + r
    ensures n / m == q && n % m == r
  {
    var p := n / m;
    assert n == p * m + n % m;
    assert (p - q) * m == r - n % m by {
      assert (p - q) * m == p * m - q * m;
    }
    SmallMultiple(p - q, m);
  }

  // ---- positions in a list of flags ----

  predicate Below(ps: seq<nat>, n: nat) {
    forall i | 0 <= i < |ps| :: ps[i] < n
  }

  ghost predicate Strict(s: seq<nat>) {
    forall i, j | 0 <= i < j < |s| :: s[i] < s[j]
  }

  /** Positions of `flags` that equal `want`, in order. */
  function Positions(flags: seq<bool>, want: bool): (ps: seq<nat>)
    ensures Below(ps, |flags|)
  {
    if flags == [] then []
    else
      var n := |flags| - 1;
      Positions(flags[..n], want) + if flags[n] == want then [n] else []
  }

  lemma {:induction false} PositionsExact(flags: seq<bool>, want: bool)
    ensures Strict(Positions(flags, want))
    ensures forall p: nat :: p in Positions(flags, want) <==> p < |flags| && flags[p] == want
  {
    if flags != [] {
      var n := |flags| - 1;
      var before := Positions(flags[..n], want);
      PositionsExact(flags[..n], want);
      assert forall p: nat | p < n :: flags[..n][p] == flags[p];
      assert forall i | 0 <= i < |before| :: before[i] in before;
    }
  }

  // ---- distinct texts ----

  /** First-seen order: each text once, where it first occurs. */
  function FirstSeen(ts: seq<Bytes>): seq<Bytes> {
    if ts == [] then []
    else
      var n := |ts| - 1;
      FirstSeen(ts[..n]) + if ts[n] in ts[..n] then [] else [ts[n]]
  }

  lemma {:induction false} FirstSeenMembers(ts: seq<Bytes>, t: Bytes)
    ensures t in FirstSeen(ts) <==> t in ts
  {
    if ts != [] {
      FirstSeenMembers(ts[..|ts| - 1], t);
      assert ts == ts[..|ts| - 1] + [ts[|ts| - 1]];
    }
  }

  /** Each text once, and an earlier one before every occurrence of a later one. */
  lemma {:induction false} FirstSeenOrder(ts: seq<Bytes>)
    ensures Distinct(FirstSeen(ts))
    ensures forall i, j, q | 0 <= i < j < |FirstSeen(ts)| && 0 <= q < |ts| && ts[q] == FirstSeen(ts)[j] ::
              FirstSeen(ts)[i] in ts[..q]
  {
    if ts != [] {
      var n := |ts| - 1;
      var f, before := FirstSeen(ts), FirstSeen(ts[..n]);
      FirstSeenOrder(ts[..n]);
      forall t {
        FirstSeenMembers(ts[..n], t);
      }
      forall i, j, q | 0 <= i < j < |f| && 0 <= q < |ts| && ts[q] == f[j]
        ensures f[i] in ts[..q]
      {
        assert f[i] == before[i];
        if q < n {
          assert ts[..n][q] == ts[q] && ts[..n][..q] == ts[..q] && j < |before|;
        }
      }
    }
  }

  lemma FirstSeenMore(ts: seq<Bytes>, t: Bytes)
    ensures FirstSeen(ts + [t]) == FirstSeen(ts) + if t in ts then [] else [t]
  {
    assert (ts + [t])[..|ts|] == ts;
  }
}
