/** Integer operations of the program's language. */
module Integers {

  function Min(a: int, b: int): int {
    if a < b then a else b
  }

  /** Integer division rounds towards zero. */
  function Quotient(i: int, m: int): (q: int)
    requires m > 0
    ensures i >= 0 ==> q * m <= i < q * m + m
    ensures i <= 0 ==> q * m - m < i <= q * m
  {
    if i >= 0 then i / m else -(-i / m)
  }
}
