/** Types, machine limits and wrapping counters shared by the modules. */
module Basics {
  type TaskId = nat

  const TWO64 := 0x1_0000_0000_0000_0000
  const INT_MIN := -0x8000_0000

  datatype Option<T> = None | Some(value: T)

  /** The value of a 64-bit counter. */
  function Wrap(x: int): nat {
    x % TWO64
  }

  lemma WrapPlus(a: int, b: int)
    ensures Wrap(Wrap(a) + b) == Wrap(a + b)
    ensures Wrap(b - Wrap(a)) == Wrap(b - a)
  {
    var k := a / TWO64;
    WrapShift(a + b, -k);
    WrapShift(b - a, k);
  }

  lemma WrapShift(x: int, k: int)
    ensures Wrap(x + TWO64 * k) == Wrap(x)
  {
  }
}
