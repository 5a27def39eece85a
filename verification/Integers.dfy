/** The fixed-width integers of the C sides, and facts about remainders. */
module Integers {
  const TWO_TO_32: int := 0x1_0000_0000
  const TWO_TO_64: int := 0x1_0000_0000_0000_0000

  type byte = x: int | 0 <= x < 256
  type u32 = x: int | 0 <= x < TWO_TO_32
  type u64 = x: int | 0 <= x < TWO_TO_64

  // ----- quotients and remainders by a variable

  lemma Multiples(n: nat, k: int)
    requires n > 0
    ensures k >= 1 ==> n * k >= n
    ensures k <= -1 ==> n * k <= 0 - n
  {
    if k >= 1 { assert n * k == n + n * (k - 1); }
    if k <= -1 { assert n * k == n * (k + 1) - n; }
  }

  lemma QuotientIsUnique(n: nat, k: int, x: int, l: int, y: int)
    requires 0 <= x < n && 0 <= y < n && n * k + x == n * l + y
    ensures k == l && x == y
  {
    Multiples(n, k - l);
    assert n * (k - l) == n * k - n * l;
  }

  lemma ModDistinct(p: nat, q: nat, n: nat)
    requires n > 0 && p < q < p + n
    ensures p % n != q % n
  {
    var k := q / n - p / n;
    Multiples(n, k);
    assert n * k == n * (q / n) - n * (p / n);
    assert q - p == n * k + q % n - p % n;
  }

  lemma Around(p: nat, n: nat)
    requires n > 0
    ensures (p + n) % n == p % n
  {
    assert n * (p / n + 1) == n * (p / n) + n;
    QuotientIsUnique(n, (p + n) / n, (p + n) % n, p / n + 1, p % n);
  }

  lemma SmallRemainder(p: nat, n: nat)
    requires p < n
    ensures p % n == p
  {
    QuotientIsUnique(n, p / n, p % n, 0, p);
  }
}
