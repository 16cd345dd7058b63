/** Definitions shared by several modules. */
module Common {

  datatype Option<T> = None | Some(value: T)

  type Byte = n: nat | n < 0x100

  function Min(a: int, b: int): int { if a < b then a else b }

  function Max(a: int, b: int): int { if a > b then a else b }

  /** Quotient and remainder are unique. */
  lemma Divided(v: int, d: int, q: int, r: int)
    requires 0 <= r < d && v == q * d + r
    ensures v / d == q && v % d == r
  {
    var k := v / d;
    assert (k - q) * d == r - v % d;
    SmallMultiple(k - q, d);
  }

  lemma SmallMultiple(m: int, d: int)
    requires d > 0 && -d < m * d < d
    ensures m == 0
  {
    if m >= 1 {
      AtLeast(m, d);
    } else if m <= -1 {
      AtLeast(-m, d);
    }
  }

  lemma AtLeast(m: int, d: int)
    requires m >= 1 && d > 0
    ensures m * d >= d
  {
  }
}
