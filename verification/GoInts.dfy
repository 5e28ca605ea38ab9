/** Failure-carrying results, and Go's fixed-width integers written out over
    Dafny's unbounded `int`. */
module Outcomes {
  datatype Option<+T> = None | Some(value: T)

  datatype Result<+T, +E> = Ok(value: T) | Err(error: E)
}

module GoInts {
  const TWO_32 := 0x1_0000_0000
  const TWO_63 := 0x8000_0000_0000_0000
  const TWO_64 := 0x1_0000_0000_0000_0000

  predicate IsInt64(x: int) {
    -TWO_63 <= x < TWO_63
  }

  type int64 = x: int | IsInt64(x)

  /** The two's complement value that 64-bit arithmetic leaves behind. */
  function Wrap64(x: int): (r: int64)
    ensures IsInt64(x) ==> r == x
  {
    (x + TWO_63) % TWO_64 - TWO_63
  }

  /** Wrapping an operand first changes nothing. */
  lemma WrapAdd(a: int, b: int)
    ensures Wrap64(Wrap64(a) + b) == Wrap64(a + b)
  {
  }

  /** The order of two wrapping additions does not matter. */
  lemma WrapSwap(a: int, b: int, c: int)
    ensures Wrap64(Wrap64(a + b) + c) == Wrap64(Wrap64(a + c) + b)
  {
    WrapAdd(a + b, c);
    WrapAdd(a + c, b);
  }

  /** Only adding zero leaves a wrapped sum as it was. */
  lemma WrapShift(a: int, v: int64)
    ensures Wrap64(a + v) == Wrap64(a) <==> v == 0
  {
    var x := a + TWO_63;
    if (x + v) % TWO_64 == x % TWO_64 {
      var d := (x + v) / TWO_64 - x / TWO_64;
      assert v == TWO_64 * d;
      assert d >= 1 ==> TWO_64 * d >= TWO_64;
      assert d <= -1 ==> TWO_64 * d <= -TWO_64;
      assert IsInt64(v);
      assert d == 0;
    }
  }

  /** Integer division as Go does it: the quotient is truncated toward zero. */
  function TruncDiv(a: int, b: int): (q: int)
    requires b > 0
  {
    if a >= 0 then a / b else -((-a) / b)
  }
}
