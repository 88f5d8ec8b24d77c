/** C#'s 32-bit `int`: the type of `Person.Age`, `PersonStruct.Age` and of the
    benchmark's running `total`. Under C#'s default unchecked context, a
    sum that leaves the range wraps around (two's complement). */
module Int32 {

  const Modulus: int := 0x1_0000_0000

  predicate InRange(x: int) {
    -0x8000_0000 <= x < 0x8000_0000
  }

  type int32 = x: int | InRange(x)

  /** Truncation of a mathematical integer to its low 32 bits, read as a signed value. */
  function Wrap(x: int): (r: int32)
    ensures (x - r) % Modulus == 0
    ensures InRange(x) ==> r == x
  {
    var m := x % Modulus;
    if m < 0x8000_0000 then m else m - Modulus
  }

  /** Two in-range integers that agree modulo 2^32 are equal: Wrap is the only
      32-bit representative of its residue class. */
  lemma WrapUnique(x: int, r: int)
    requires InRange(r)
    requires (x - r) % Modulus == 0
    ensures Wrap(x) == r
  {
    var w := Wrap(x);
    assert (w - r) % Modulus == 0 by {
      assert (x - w) % Modulus == 0;
      ModSubtract(x - r, x - w);
    }
    assert -Modulus < w - r < Modulus;
  }

  /** Multiples of 2^32 are closed under subtraction. */
  lemma ModSubtract(a: int, b: int)
    requires a % Modulus == 0 && b % Modulus == 0
    ensures (a - b) % Modulus == 0
  {
    var i := a / Modulus;
    var j := b / Modulus;
    assert a == i * Modulus;
    assert b == j * Modulus;
    assert a - b == (i - j) * Modulus;
  }

  /** C#'s unchecked `a + b` on two ints. */
  function Add(a: int32, b: int32): (r: int32)
    ensures InRange(a + b) ==> r == a + b
    ensures (a + b - r) % Modulus == 0
  {
    Wrap(a + b)
  }

  /** Wrapping an intermediate result does not change a later wrapped sum, so
      a running total kept in an int32 equals the wrapped mathematical sum. */
  lemma AddWrapped(a: int, b: int)
    ensures Wrap(Wrap(a) + b) == Wrap(a + b)
  {
    var w := Wrap(a);
    var r := Wrap(a + b);
    assert (a - w) % Modulus == 0;
    assert (a + b - r) % Modulus == 0;
    ModSubtract(a + b - r, a - w);
    assert (w + b) - r == (a + b - r) - (a - w);
    WrapUnique(w + b, r);
  }

  /** One step of a loop that adds the same int32 `x` to a running total:
      after `i + 1` additions the total is the wrapped product `x * (i + 1)`. */
  lemma AccumulateStep(x: int32, i: int)
    ensures Add(Wrap(x * i), x) == Wrap(x * (i + 1))
  {
    AddWrapped(x * i, x);
    assert x * i + x == x * (i + 1);
  }
}
