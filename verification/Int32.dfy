/** 32-bit two's complement integers, as C's `int` and Java's `Integer` have them. */
module Int32 {
  import opened Options

  const MAX := 0x7fff_ffff
  const MIN := -0x8000_0000

  predicate Fits(x: int) {
    MIN <= x <= MAX
  }

  /** The value of one C operation: none when it overflows. */
  function Checked(x: int): Option<int> {
    if Fits(x) then Some(x) else None
  }

  lemma CheckedExactly(x: int)
    ensures Checked(x) == if -0x8000_0000 <= x <= 0x7fff_ffff then Some(x) else None
  {
  }

  /** The value Java stores for x: the residue of x modulo 2^32 in the signed range. */
  function Wrap(x: int): int {
    (x - MIN) % 0x1_0000_0000 + MIN
  }

  /** It is in the signed range and differs from x by a multiple of 2^32; there is only one such value. */
  lemma WrapIsResidue(x: int)
    ensures -0x8000_0000 <= Wrap(x) <= 0x7fff_ffff && (x - Wrap(x)) % 0x1_0000_0000 == 0
  {
  }

  /** Wrapping after every increment is wrapping once at the end. */
  lemma WrapStep(x: int)
    ensures Wrap(Wrap(x) + 1) == Wrap(x + 1)
    ensures Fits(x) ==> Wrap(x) == x
  {
  }
}
