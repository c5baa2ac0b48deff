/** Unsigned 64-bit counters and their wrap-around. */
module Unsigned {

  const TWO64 := 0x1_0000_0000_0000_0000
  type U64 = x: int | 0 <= x < TWO64

  function Wrap(x: int): U64 {
    x % TWO64
  }

  // Unsigned subtraction wraps.
  function Minus(a: U64, b: U64): U64 {
    Wrap(a - b)
  }

  // Wrapping an operand first makes no difference to a wrapped sum.
  lemma WrapAdd(a: int, b: int)
    ensures Wrap(Wrap(a) + b) == Wrap(a + b)
  {
    assert a == (a / TWO64) * TWO64 + Wrap(a);
  }
}
