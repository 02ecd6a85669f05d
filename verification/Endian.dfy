/** Little-endian numbers in byte strings. */
module Endian {
  import opened Common

  function Pow256(w: nat): (p: nat)
    ensures p > 0
  {
    if w == 0 then 1 else 256 * Pow256(w - 1)
  }

  /** The low `w` bytes of `n`, lowest first. */
  function Le(n: nat, w: nat): (b: Bytes)
    ensures |b| == w
  {
    if w == 0 then [] else [n % 256] + Le(n / 256, w - 1)
  }

  function FromLe(b: Bytes): nat {
    if b == [] then 0 else b[0] + 256 * FromLe(b[1..])
  }

  lemma {:induction false} LeBack(n: nat, w: nat)
    ensures FromLe(Le(n, w)) == n % Pow256(w)
  {
    if w > 0 {
      LeBack(n / 256, w - 1);
      assert Le(n, w)[1..] == Le(n / 256, w - 1);
      ModSplit(n, Pow256(w - 1));
    }
  }

  /** Byte `i` is the number's digit of that place. */
  lemma {:induction false} LeDigit(n: nat, w: nat, i: nat)
    requires i < w
    ensures Le(n, w)[i] == n / Pow256(i) % 256
  {
    if i > 0 {
      LeDigit(n / 256, w - 1, i - 1);
      DivSplit(n, Pow256(i - 1));
    }
  }

  lemma DivSplit(n: nat, p: nat)
    requires p > 0
    ensures n / 256 / p == n / (256 * p)
  {
    var q, r := n / 256 / p, (n / 256) % p;
    assert n / 256 == q * p + r;
    assert n == q * (256 * p) + (256 * r + n % 256);
    DivModUnique(n, 256 * p, q, 256 * r + n % 256);
  }

  lemma ModSplit(n: nat, p: nat)
    requires p > 0
    ensures n % (256 * p) == n % 256 + 256 * ((n / 256) % p)
  {
    var q, r := n / 256 / p, (n / 256) % p;
    assert n / 256 == q * p + r;
    assert n == 256 * (q * p + r) + n % 256;
    assert n == q * (256 * p) + (256 * r + n % 256);
    DivModUnique(n, 256 * p, q, 256 * r + n % 256);
  }
}
