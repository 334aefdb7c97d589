/** Go's 64-bit signed integers. */
module Int64 {
  const MAX := 0x7fff_ffff_ffff_ffff
  const MIN := -0x8000_0000_0000_0000
  const MODULUS := 0x1_0000_0000_0000_0000

  /** The low 64 bits of `x` as a signed integer: what arithmetic that overflows leaves. */
  function Wrap(x: int): (r: int)
    ensures MIN <= r <= MAX && (r - x) % MODULUS == 0
    ensures MIN <= x <= MAX ==> r == x
  {
    (x - MIN) % MODULUS + MIN
  }

  /** Wrapping the parts of a sum early makes no difference. */
  lemma WrapSum(x: int, y: int)
    ensures Wrap(Wrap(x) + Wrap(y)) == Wrap(x + y)
  {
  }
}
