/** Small definitions shared by every other module. */
module Prelude {

  datatype Option<+T> = None | Some(value: T)

  /** A non-zero multiple of n is at least n away from zero. */
  lemma MulApart(d: int, n: int)
    requires n > 0
    ensures d != 0 ==> d * n >= n || d * n <= 0 - n
  {
    if d >= 1 {
      assert (d - 1) * n >= 0;
    } else if d <= -1 {
      assert (-d - 1) * n >= 0;
    }
  }

  /** The quotient and the remainder are the only pair that rebuilds the dividend. */
  lemma DivModUnique(a: int, n: nat, q: int, r: nat)
    requires n > 0 && r < n && a == q * n + r
    ensures a / n == q && a % n == r
  {
    var q', r' := a / n, a % n;
    assert a == q' * n + r' by { assert a == n * q' + r'; }
    assert (q - q') * n == r' - r by { assert (q - q') * n == q * n - q' * n; }
    MulApart(q - q', n);
  }

  /** Two numbers of one residue class that lie less than a period apart are equal. */
  lemma ModUnique(a: nat, b: nat, n: nat)
    requires n > 0 && a % n == b % n
    requires a < b + n && b < a + n
    ensures a == b
  {
    var qa, qb := a / n, b / n;
    assert a == qa * n + a % n;
    assert b == qb * n + b % n;
    assert (qa - qb) * n == a - b by { assert (qa - qb) * n == qa * n - qb * n; }
    MulApart(qa - qb, n);
  }

  /** Adding whole periods does not change the residue. */
  lemma ModAddPeriod(a: nat, k: nat, n: nat)
    requires n > 0
    ensures (a + k * n) % n == a % n
  {
    var q, r := a / n, a % n;
    assert a == q * n + r;
    assert a + k * n == (q + k) * n + r by { assert (q + k) * n == q * n + k * n; }
    DivModUnique(a + k * n, n, q + k, r);
  }

  const U64: nat := 0x1_0000_0000_0000_0000

  function Pow2(k: nat): nat {
    if k == 0 then 1 else 2 * Pow2(k - 1)
  }

  lemma {:induction false} Pow2Monotone(j: nat, k: nat)
    requires j <= k
    ensures 1 <= Pow2(j) <= Pow2(k)
    decreases k
  {
    if j < k {
      Pow2Monotone(j, k - 1);
    } else if k > 0 {
      Pow2Monotone(k - 1, k - 1);
    }
  }
}
