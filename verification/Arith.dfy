/** Facts about multiples and remainders the solver does not find by itself. */
module Arith {
  lemma MultipleAtLeast(k: int, a: int)
    requires 0 < a
    ensures 1 <= k ==> k * a >= a
    ensures k <= -1 ==> k * a <= -a
  {
    if 1 <= k {
      assert (k - 1) * a >= 0;
    } else if k <= -1 {
      assert (k + 1) * a <= 0;
    }
  }

  lemma SmallMultiple(k: int, a: int, d: int)
    requires -a < d < a && k * a == d
    ensures k == 0 && d == 0
  {
    MultipleAtLeast(k, a);
  }

  lemma DivUnique(x: nat, a: nat, q: nat, r: nat)
    requires 0 < a && r < a && x == q * a + r
    ensures x / a == q && x % a == r
  {
    var q', r' := x / a, x % a;
    assert x == q' * a + r';
    SmallMultiple(q' - q, a, r - r');
  }

  lemma ModAdd(k: nat, n: nat)
    requires 0 < n
    ensures (k + n) % n == k % n
  {
    assert k + n == (k / n + 1) * n + k % n;
    DivUnique(k + n, n, k / n + 1, k % n);
  }
}
