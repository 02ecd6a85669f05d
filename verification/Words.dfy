/**
 Unsigned 64-bit words as their 64 bits, lowest first, with the operators the null
 bitmaps are built and scanned with.  `Value` ties the bits to the number, so that
 the borrow in `w - 1` is the subtraction it stands for.
 */
module Words {

  type Bits = seq<bool>

  type Word = w: Bits | |w| == 64 witness seq(64, i => false)

  function Zero(): Word {
    seq(64, i => false)
  }

  function AllOnes(): Word {
    seq(64, i => true)
  }

  function Value(b: Bits): nat {
    if b == [] then 0 else (if b[0] then 1 else 0) + 2 * Value(b[1..])
  }

  /** `n >> i` */
  function Halved(n: nat, i: nat): nat {
    if i == 0 then n else Halved(n / 2, i - 1)
  }

  /** The bits are those of the number. */
  lemma {:induction false} BitOfValue(b: Bits, i: nat)
    requires i < |b|
    ensures b[i] <==> Halved(Value(b), i) % 2 == 1
  {
    HalfOfValue(b);
    if i > 0 {
      BitOfValue(b[1..], i - 1);
    }
  }

  lemma HalfOfValue(b: Bits)
    requires b != []
    ensures Value(b) / 2 == Value(b[1..]) && (Value(b) % 2 == 1 <==> b[0])
  {}

  function Not(w: Word): Word {
    seq(64, i requires 0 <= i < 64 => !w[i])
  }

  function And(a: Word, b: Word): Word {
    seq(64, i requires 0 <= i < 64 => a[i] && b[i])
  }

  function Or(a: Word, b: Word): Word {
    seq(64, i requires 0 <= i < 64 => a[i] || b[i])
  }

  /** `w << n` */
  function Shl(w: Word, n: nat): Word
    requires n < 64
  {
    seq(64, i requires 0 <= i < 64 => n <= i && w[i - n])
  }

  /** `w >> n` */
  function Shr(w: Word, n: nat): Word
    requires n < 64
  {
    seq(64, i requires 0 <= i < 64 => i + n < 64 && w[i + n])
  }

  /** `b as u64` */
  function FromBool(b: bool): Word {
    Zero()[0 := b]
  }

  predicate NonZero(b: Bits) {
    true in b
  }

  /** `trailing_zeros` */
  function Ctz(b: Bits): (t: nat)
    requires NonZero(b)
    ensures t < |b| && b[t] && forall j | 0 <= j < t :: !b[j]
  {
    if b[0] then 0 else 1 + Ctz(b[1..])
  }

  /** `b - 1`, the borrow rippling up to the lowest set bit. */
  function Dec(b: Bits): (r: Bits)
    ensures |r| == |b|
  {
    if b == [] then [] else if b[0] then [false] + b[1..] else [true] + Dec(b[1..])
  }

  lemma {:induction false} DecIsMinusOne(b: Bits)
    requires NonZero(b)
    ensures Value(Dec(b)) == Value(b) - 1
  {
    if !b[0] {
      DecIsMinusOne(b[1..]);
      assert Dec(b)[1..] == Dec(b[1..]);
    } else {
      assert Dec(b)[1..] == b[1..];
    }
  }

  lemma {:induction false} DecBits(b: Bits)
    requires NonZero(b)
    ensures forall j | 0 <= j < |b| :: Dec(b)[j] == if j < Ctz(b) then true else if j == Ctz(b) then false else b[j]
  {
    if !b[0] {
      DecBits(b[1..]);
    }
  }

  /** `w & (w - 1)` clears the lowest set bit and nothing else. */
  lemma ClearLowest(w: Word)
    requires NonZero(w)
    ensures And(w, Dec(w)) == w[Ctz(w) := false]
  {
    DecBits(w);
  }

  /** `(1 << n) - 1` keeps the low n bits. */
  lemma LowMask(n: nat)
    requires n < 64
    ensures forall j | 0 <= j < 64 :: Dec(Shl(FromBool(true), n))[j] == (j < n)
  {
    var w := Shl(FromBool(true), n);
    assert w[n];
    DecBits(w);
  }

  /** How many bits are set. */
  function Ones(b: Bits): nat {
    if b == [] then 0 else (if b[0] then 1 else 0) + Ones(b[1..])
  }

  lemma {:induction false} ClearDrops(b: Bits, t: nat)
    requires t < |b| && b[t]
    ensures Ones(b[t := false]) < Ones(b)
  {
    if t == 0 {
      assert b[t := false][1..] == b[1..];
    } else {
      assert b[t := false][1..] == b[1..][t - 1 := false];
      ClearDrops(b[1..], t - 1);
    }
  }
}
