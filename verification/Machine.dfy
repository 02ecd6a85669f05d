/** Two's-complement integers of 16, 32 and 64 bits, the L nulls, and the epoch shifts. */
module Machine {
  import opened Common

  datatype Kind = I16 | I32 | I64

  /** How many values the width holds. */
  function Size(k: Kind): int {
    match k
    case I16 => 0x1_0000
    case I32 => 0x1_0000_0000
    case I64 => 0x1_0000_0000_0000_0000
  }

  function MaxOf(k: Kind): int {
    Size(k) / 2 - 1
  }

  /** The smallest value, which is also L's null. */
  function Null(k: Kind): int {
    -(Size(k) / 2)
  }

  predicate Fits(k: Kind, x: int) {
    Null(k) <= x <= MaxOf(k)
  }

  /** The value the low bits of `x` stand for. */
  function Wrap(k: Kind, x: int): (r: int)
    ensures Fits(k, r)
    ensures Fits(k, x) ==> r == x
  {
    (x - Null(k)) % Size(k) + Null(k)
  }

  function Checked(k: Kind, x: int): Option<int> {
    if Fits(k, x) then Some(x) else None
  }

  /** The three ranges. */
  lemma Ranges()
    ensures Null(I16) == -0x8000 && MaxOf(I16) == 0x7FFF
    ensures Null(I32) == -0x8000_0000 && MaxOf(I32) == 0x7FFF_FFFF
    ensures Null(I64) == -0x8000_0000_0000_0000 && MaxOf(I64) == 0x7FFF_FFFF_FFFF_FFFF
  {}

  /** Days and nanoseconds from 1970 to 2000. */
  const DAY2000: int := 10_957

  const NS2000: int := 946_684_800_000_000_000

  /** The calendar fact behind both constants. */
  lemma ShiftsAgree()
    ensures NS2000 == DAY2000 * 86_400 * 1_000_000_000
    ensures DAY2000 == 30 * 365 + 7
  {}
}
