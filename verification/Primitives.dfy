/** Machine-level types and limits, and remainders. */
module Primitives {

  newtype byte = x: int | 0 <= x < 256

  /** The largest `int`: lengths above it do not survive the narrowing in `split` and `send`. */
  const MAX_INT: nat := 0x7fff_ffff

  lemma AtLeast(a: int, m: nat)
    ensures a >= 1 ==> a * m >= m
    ensures a <= -1 ==> a * m <= 0 - m
  {
    if a >= 1 {
      assert a * m == (a - 1) * m + m;
    } else if a <= -1 {
      assert a * m == (a + 1) * m - m;
    }
  }

  /** The remainder is the only number below m that leaves a multiple of m. */
  lemma ModUnique(a: int, k: int, m: nat, r: nat)
    requires m > 0 && a == k * m + r && r < m
    ensures a % m == r
  {
    var d := k - a / m;
    assert d * m == k * m - a / m * m;
    AtLeast(d, m);
  }
}
