/**
 Machine integer types of the C/C++ sources and a small Option type.

 Dafny integers are unbounded, so the fixed-width unsigned types used by the
 capture callback (`uint32_t`, `guint`, `guint64`) are subset types of `int`
 and every wrap-around is written out with `Wrap32`.
 */
module CTypes {

  const Two32: int := 0x1_0000_0000
  const Two64: int := 0x1_0000_0000_0000_0000

  type byte = x: int | 0 <= x < 0x100
  type uint32 = x: int | 0 <= x < Two32
  type uint64 = x: int | 0 <= x < Two64

  /** The value an unsigned 32-bit C expression yields for the exact result `x`. */
  function Wrap32(x: int): (r: uint32)
    ensures 0 <= x < Two32 ==> r == x
  {
    x % Two32
  }

  /** Unsigned 32-bit multiplication as C evaluates it. */
  function Mul32(a: uint32, b: uint32): uint32 {
    Wrap32(a * b)
  }

  datatype Option<+T> = None | Some(value: T) {
    function GetOr(default: T): T {
      match this
      case Some(v) => v
      case None => default
    }
  }

  /** Euclidean division is determined by any quotient/remainder pair. */
  lemma DivModUnique(y: int, m: int, q: int, r: int)
    requires m > 0
    requires 0 <= r < m
    requires y == q * m + r
    ensures y / m == q
    ensures y % m == r
  {
    var q' := y / m;
    var r' := y % m;
    var d := q - q';
    assert d * m == r' - r;
  }

  /** A value already below the modulus is its own remainder. */
  lemma ModSmall(x: int, m: int)
    requires 0 <= x < m
    ensures x % m == x
  {
    DivModUnique(x, m, 0, x);
  }

  /** Adding a multiple of the modulus does not change the remainder. */
  lemma ModAddMultiple(x: int, k: int, m: int)
    requires m > 0
    ensures (x + k * m) % m == x % m
  {
    var q := x / m;
    var r := x % m;
    assert x + k * m == (q + k) * m + r;
    DivModUnique(x + k * m, m, q + k, r);
  }

  /** Reducing an intermediate product modulo `m` does not change the final remainder. */
  lemma ModMulLeft(a: int, c: int, m: int)
    requires m > 0
    ensures ((a % m) * c) % m == (a * c) % m
  {
    var q := a / m;
    var r := a % m;
    assert a == q * m + r;
    assert a * c == r * c + (q * c) * m;
    ModAddMultiple(r * c, q * c, m);
  }
}
