/** C#'s `int`: 32-bit two's complement, with the wrap-around of unchecked arithmetic. */
module Int32 {

  const Modulus: int := 0x1_0000_0000

  type int32 = x: int | -0x8000_0000 <= x < 0x8000_0000

  /** The int32 value an unchecked C# expression yields for the mathematical value x. */
  function Wrap32(x: int): (r: int32)
    ensures (r - x) % Modulus == 0
    ensures -0x8000_0000 <= x < 0x8000_0000 ==> r == x
  {
    (x + 0x8000_0000) % Modulus - 0x8000_0000
  }

  /** Two values congruent modulo 2^32 wrap to the same int32. */
  lemma Congruent(a: int, b: int)
    requires (a - b) % Modulus == 0
    ensures Wrap32(a) == Wrap32(b)
  {
    var ra, rb := Wrap32(a), Wrap32(b);
    assert (ra - rb) % Modulus == 0 by {
      assert ra - rb == (ra - a) + (a - b) + (b - rb);
    }
  }

  /** Adding to a wrapped value wraps like adding to the original: why `i += 1000` in int
      arithmetic keeps i equal to the wrapped count of thousands. */
  lemma WrapAdd(x: int, c: int)
    ensures Wrap32(Wrap32(x) + c) == Wrap32(x + c)
  {
    Congruent(Wrap32(x) + c, x + c);
  }

  /** Wrapping preserves parity: an even value wraps to twice some int. */
  lemma WrapEven(m: int) returns (h: int)
    ensures Wrap32(2 * m) == 2 * h
  {
    var r := Wrap32(2 * m);
    var q := (r - 2 * m) / Modulus;
    assert r == 2 * m + q * Modulus;
    h := m + q * 0x8000_0000;
  }
}
