/** Shared helpers: optional values, results, and Java's fixed-width integer arithmetic. */
module Common {

  /** Java's nullable reference, or a value that may be absent. */
  datatype Option<+T> = None | Some(value: T)

  /** Outcome of an operation that may throw: a value, or the exception it raises. */
  datatype Result<+T, +E> = Success(value: T) | Failure(error: E)

  /** Outcome of an operation with no result value that may throw. */
  datatype Outcome<+E> = Pass | Fail(error: E)

  const TWO_31: int := 0x8000_0000
  const TWO_32: int := 0x1_0000_0000
  const TWO_63: int := 0x8000_0000_0000_0000
  const TWO_64: int := 0x1_0000_0000_0000_0000

  /** Java `int`: 32-bit two's complement. */
  type Int32 = x: int | -TWO_31 <= x < TWO_31
  /** Java `long`: 64-bit two's complement. */
  type Int64 = x: int | -TWO_63 <= x < TWO_63

  const INT_MAX: Int32 := 0x7fff_ffff
  const INT_MIN: Int32 := -0x8000_0000

  /** Reduces a mathematical integer to the Java `int` with the same low 32 bits. */
  function Wrap32(x: int): (r: Int32)
    ensures (r - x) % TWO_32 == 0
    ensures -TWO_31 <= x < TWO_31 ==> r == x
  {
    var m := x % TWO_32;
    if m >= TWO_31 then m - TWO_32 else m
  }

  /** Reduces a mathematical integer to the Java `long` with the same low 64 bits. */
  function Wrap64(x: int): (r: Int64)
    ensures (r - x) % TWO_64 == 0
    ensures -TWO_63 <= x < TWO_63 ==> r == x
  {
    var m := x % TWO_64;
    if m >= TWO_63 then m - TWO_64 else m
  }

  /** Incrementing the wrapped value wraps the same as incrementing the original. */
  lemma Wrap32Succ(x: int)
    ensures Wrap32(Wrap32(x) + 1) == Wrap32(x + 1)
  {
    var w := Wrap32(x);
    assert (w + 1) % TWO_32 == (x + 1) % TWO_32;
  }

  /** Java's `%` on ints: the remainder truncates toward zero, so it takes the sign of the dividend. */
  function JavaRem(a: int, b: int): (r: int)
    requires b > 0
    ensures -b < r < b
    ensures a >= 0 ==> r >= 0
    ensures a <= 0 ==> r <= 0
    ensures (if r >= 0 then r else -r) == (if a >= 0 then a else -a) % b
  {
    if a >= 0 then a % b else -((-a) % b)
  }

  /** Java's `Math.abs(int)`: the negation of `Integer.MIN_VALUE` overflows back to itself. */
  function JavaAbs32(x: Int32): (r: Int32)
    ensures x != INT_MIN ==> r >= 0 && (r == x || r == -x)
    ensures x == INT_MIN ==> r == INT_MIN
  {
    if x >= 0 then x else Wrap32(-(x as int))
  }

  function Max(a: int, b: int): (r: int)
    ensures r >= a && r >= b && (r == a || r == b)
  {
    if a >= b then a else b
  }
}
