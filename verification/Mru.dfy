/**
 A most-recently-used list of keyed entries: a hit moves its entry to the front, a
 miss puts a new one there and drops the last when the list is full.
 */
module Mru {
  import opened Common

  type List<K, V> = seq<(K, V)>

  function Keys<K, V>(l: List<K, V>): seq<K> {
    seq(|l|, i requires 0 <= i < |l| => l[i].0)
  }

  /** `position`: the first entry with the key. */
  function Find<K(==), V>(l: List<K, V>, k: K): (i: Option<nat>)
    ensures i.None? <==> k !in Keys(l)
    ensures i.Some? ==> i.value < |l| && l[i.value].0 == k && forall j | 0 <= j < i.value :: l[j].0 != k
  {
    if l == [] then None
    else if l[0].0 == k then assert Keys(l)[0] == k; Some(0)
    else
      assert Keys(l) == [l[0].0] + Keys(l[1..]);
      var r := Find(l[1..], k);
      if r.None? then None else Some(r.value + 1)
  }

  /** `[..=i].rotate_right(1)` */
  function ToFront<T>(l: seq<T>, i: nat): seq<T>
    requires i < |l|
  {
    [l[i]] + l[..i] + l[i + 1..]
  }

  /** `truncate(cap - 1)` then `insert(0, x)` */
  function PushFront<T>(l: seq<T>, x: T, cap: nat): seq<T>
    requires cap > 0
  {
    [x] + l[..Min(|l|, cap - 1)]
  }

  /** A full list loses its last entry and no other; a list with room loses none. */
  lemma EvictsLastOnly<T>(l: seq<T>, x: T, cap: nat)
    requires cap > 0 && |l| <= cap
    ensures var r := PushFront(l, x, cap);
            && |r| <= cap && r[0] == x
            && r[1..] == if |l| == cap then l[..|l| - 1] else l
  {}

  /** A hit reorders nothing but the entry it moves. */
  lemma HitKeepsOrder<T>(l: seq<T>, i: nat)
    requires i < |l|
    ensures var r := ToFront(l, i);
            && |r| == |l| && r[0] == l[i] && multiset(r) == multiset(l)
            && r[1..] == l[..i] + l[i + 1..]
  {
    assert l == l[..i] + [l[i]] + l[i + 1..];
  }

  lemma HitKeepsDistinct<K, V>(l: List<K, V>, i: nat)
    requires i < |l| && Distinct(Keys(l))
    ensures Distinct(Keys(ToFront(l, i)))
  {
    var r := ToFront(l, i);
    forall a, b | 0 <= a < b < |r|
      ensures Keys(r)[a] != Keys(r)[b]
    {
      var x := if a == 0 then i else if a <= i then a - 1 else a;
      var y := if b <= i then b - 1 else b;
      assert r[a] == l[x] && r[b] == l[y] && x != y;
      assert Keys(l)[x] != Keys(l)[y];
    }
  }

  lemma MissKeepsDistinct<K, V>(l: List<K, V>, k: K, v: V, cap: nat)
    requires cap > 0 && Distinct(Keys(l)) && k !in Keys(l)
    ensures Distinct(Keys(PushFront(l, (k, v), cap)))
  {
    var r := PushFront(l, (k, v), cap);
    forall a, b | 0 <= a < b < |r|
      ensures Keys(r)[a] != Keys(r)[b]
    {
      assert r[b] == l[b - 1] && Keys(l)[b - 1] == l[b - 1].0;
      if a > 0 {
        assert r[a] == l[a - 1] && Keys(l)[a - 1] == l[a - 1].0;
      }
    }
  }

  // ---- what such a list remembers ----

  function Without<K(==)>(s: seq<K>, k: K): seq<K> {
    if s == [] then []
    else
      var n := |s| - 1;
      Without(s[..n], k) + if s[n] == k then [] else [s[n]]
  }

  /** The keys of a history of uses, the latest used first. */
  function Recency<K(==)>(uses: seq<K>): seq<K> {
    if uses == [] then []
    else
      var n := |uses| - 1;
      [uses[n]] + Without(Recency(uses[..n]), uses[n])
  }

  function Top<K>(s: seq<K>, cap: nat): seq<K> {
    s[..Min(|s|, cap)]
  }

  lemma {:induction false} WithoutAbsent<K>(s: seq<K>, k: K)
    requires k !in s
    ensures Without(s, k) == s
  {
    if s != [] {
      WithoutAbsent(s[..|s| - 1], k);
    }
  }

  lemma {:induction false} WithoutAt<K>(s: seq<K>, i: nat)
    requires Distinct(s) && i < |s|
    ensures Without(s, s[i]) == s[..i] + s[i + 1..]
  {
    var n := |s| - 1;
    if i == n {
      WithoutAbsent(s[..n], s[n]);
    } else {
      WithoutAt(s[..n], i);
      assert s[i + 1..] == s[..n][i + 1..] + [s[n]];
    }
  }

  lemma {:induction false} WithoutAny<K>(s: seq<K>, k: K)
    requires Distinct(s)
    ensures Distinct(Without(s, k)) && k !in Without(s, k)
    ensures forall x :: x in Without(s, k) <==> x in s && x != k
  {
    if s != [] {
      var n := |s| - 1;
      assert s == s[..n] + [s[n]];
      assert s[n] !in s[..n];
      WithoutAny(s[..n], k);
    }
  }

  lemma {:induction false} RecencyDistinct<K>(uses: seq<K>)
    ensures Distinct(Recency(uses))
    ensures forall k :: k in Recency(uses) <==> k in uses
  {
    if uses != [] {
      var n := |uses| - 1;
      assert uses == uses[..n] + [uses[n]];
      RecencyDistinct(uses[..n]);
      WithoutAny(Recency(uses[..n]), uses[n]);
    }
  }

  /** `x` comes before `y`. */
  ghost predicate Comes<K>(s: seq<K>, x: K, y: K) {
    exists a, b :: 0 <= a < b < |s| && s[a] == x && s[b] == y
  }

  lemma ComesMore<K>(s: seq<K>, more: seq<K>, x: K, y: K)
    ensures Comes(s, x, y) ==> Comes(s + more, x, y)
    ensures x in s && more != [] && more[0] == y ==> Comes(s + more, x, y)
  {
    if Comes(s, x, y) {
      var a, b :| 0 <= a < b < |s| && s[a] == x && s[b] == y;
      assert (s + more)[a] == x && (s + more)[b] == y;
    }
    if x in s && more != [] && more[0] == y {
      var a :| 0 <= a < |s| && s[a] == x;
      assert (s + more)[a] == x && (s + more)[|s|] == y;
    }
  }

  lemma {:induction false} WithoutFrom<K>(s: seq<K>, k: K, i: nat)
    requires i < |Without(s, k)|
    ensures Without(s, k)[i] in s
  {
    var n := |s| - 1;
    if i < |Without(s[..n], k)| {
      WithoutFrom(s[..n], k, i);
      assert Without(s, k)[i] == Without(s[..n], k)[i];
    }
  }

  lemma {:induction false} WithoutOrder<K>(s: seq<K>, k: K, i: nat, j: nat)
    requires Distinct(s) && i < j < |Without(s, k)|
    ensures Comes(s, Without(s, k)[i], Without(s, k)[j])
  {
    var n := |s| - 1;
    var w, before := Without(s, k), Without(s[..n], k);
    assert s == s[..n] + [s[n]];
    WithoutFrom(s[..n], k, i);
    assert before[i] == w[i];
    if j < |before| {
      WithoutOrder(s[..n], k, i, j);
      assert Comes(s[..n], w[i], w[j]);
    } else {
      assert w[j] == s[n] && w[i] in s[..n];
    }
    ComesMore(s[..n], [s[n]], w[i], w[j]);
    assert Comes(s[..n] + [s[n]], w[i], w[j]);
  }

  /** Of two keys remembered, the one in front was used again after every use of the other. */
  lemma {:induction false} RecencyOrder<K>(uses: seq<K>, x: K, y: K, q: nat)
    requires Comes(Recency(uses), x, y) && q < |uses| && uses[q] == y
    ensures x in uses[q + 1..]
  {
    var n := |uses| - 1;
    var r, before := Recency(uses), Recency(uses[..n]);
    RecencyDistinct(uses);
    RecencyDistinct(uses[..n]);
    var i, j :| 0 <= i < j < |r| && r[i] == x && r[j] == y;
    assert y != r[0] && q < n;
    assert uses[q + 1..] == uses[..n][q + 1..] + [uses[n]];
    if i > 0 {
      WithoutOrder(before, uses[n], i - 1, j - 1);
      RecencyOrder(uses[..n], x, y, q);
    }
  }

  lemma FrontOfTop<K>(r: seq<K>, i: nat, cap: nat)
    requires i < Min(|r|, cap)
    ensures ToFront(Top(r, cap), i) == [r[i]] + r[..i] + Top(r[i + 1..], cap - i - 1)
  {
    TopTail(r, i + 1, cap);
    assert Top(r, cap)[..i] == r[..i];
  }

  lemma TopOfFront<K>(x: K, a: seq<K>, b: seq<K>, cap: nat)
    requires |a| < cap
    ensures Top([x] + (a + b), cap) == [x] + a + Top(b, cap - |a| - 1)
  {
    assert [x] + (a + b) == [x] + a + b;
    TopPast([x] + a, b, cap);
  }

  /** A hit among the `cap` latest: moving it to the front gives the `cap` latest again. */
  lemma TopHit<K>(r: seq<K>, i: nat, cap: nat)
    requires Distinct(r) && i < Min(|r|, cap)
    ensures Top([r[i]] + Without(r, r[i]), cap) == ToFront(Top(r, cap), i)
  {
    WithoutAt(r, i);
    TopOfFront(r[i], r[..i], r[i + 1..], cap);
    FrontOfTop(r, i, cap);
  }

  lemma TopPast<K>(a: seq<K>, b: seq<K>, cap: nat)
    requires |a| <= cap
    ensures Top(a + b, cap) == a + Top(b, cap - |a|)
  {}

  lemma TopTail<K>(r: seq<K>, i: nat, cap: nat)
    requires i <= Min(|r|, cap)
    ensures Top(r, cap)[i..] == Top(r[i..], cap - i)
  {}

  lemma TopMembers<K>(r: seq<K>, k: K, cap: nat)
    requires k !in Top(r, cap)
    ensures forall j | 0 <= j < Min(|r|, cap) :: r[j] != k
  {
    assert forall j | 0 <= j < Min(|r|, cap) :: Top(r, cap)[j] == r[j];
  }

  /** A miss: putting the key in front and dropping the last gives the `cap` latest again. */
  lemma TopMiss<K>(r: seq<K>, k: K, cap: nat)
    requires Distinct(r) && cap > 0 && k !in Top(r, cap)
    ensures Top([k] + Without(r, k), cap) == PushFront(Top(r, cap), k, cap)
  {
    if k in r {
      var j :| 0 <= j < |r| && r[j] == k;
      TopMembers(r, k, cap);
      WithoutAt(r, j);
    } else {
      WithoutAbsent(r, k);
    }
  }

  lemma KeysMove<K, V>(l: List<K, V>, i: nat)
    requires i < |l|
    ensures Keys(ToFront(l, i)) == ToFront(Keys(l), i)
  {}

  lemma KeysPush<K, V>(l: List<K, V>, x: (K, V), cap: nat)
    requires cap > 0
    ensures Keys(PushFront(l, x, cap)) == PushFront(Keys(l), x.0, cap)
  {}
}
