/** Multiples of a block size. */
module Multiples {

  lemma Scale(b: nat, d: int)
    requires b > 0
    ensures d >= 1 ==> b * d >= b
    ensures d <= -1 ==> b * d + b <= 0
  {
  }

  /** Quotient and remainder are determined by x == b * k + r. */
  lemma Unique(x: nat, b: nat, k: nat, r: nat)
    requires b > 0 && r < b && x == b * k + r
    ensures x % b == r && x / b == k
  {
    var k', r' := x / b, x % b;
    assert x == b * k' + r';
    assert b * (k - k') == r' - r;
    Scale(b, k - k');
  }

  lemma Sums(x: nat, y: nat, b: nat)
    requires b > 0 && x % b == 0 && y % b == 0
    ensures (x + y) % b == 0
    ensures y <= x ==> (x - y) % b == 0
  {
    var m, n := x / b, y / b;
    assert x == b * m && y == b * n;
    assert x + y == b * (m + n) && x - y == b * (m - n);
    Unique(x + y, b, m + n, 0);
    if y <= x {
      Scale(b, m - n);
      Unique(x - y, b, m - n, 0);
    }
  }

  /** Taking away one block leaves the remainder as it is. */
  lemma OneLess(x: nat, b: nat)
    requires 0 < b <= x
    ensures (x - b) % b == x % b
  {
    var k, r := x / b, x % b;
    assert x == b * k + r;
    Scale(b, k);
    Scale(b, 1 - k);
    assert x - b == b * (k - 1) + r;
    Unique(x - b, b, k - 1, r);
  }

  lemma OneLessQuotient(x: nat, b: nat)
    requires 0 < b <= x
    ensures x / b >= 1 && (x - b) / b == x / b - 1
  {
    var k, r := x / b, x % b;
    assert x == b * k + r;
    Scale(b, k);
    Scale(b, 1 - k);
    assert x - b == b * (k - 1) + r;
    Unique(x - b, b, k - 1, r);
  }

  lemma OneFewer(k: nat, c: nat)
    ensures k * c == (k - 1) * c + c
  {
  }

  lemma RoundDown(x: nat, b: nat) returns (full: nat)
    requires 0 < b <= x && x % b != 0
    ensures full % b == 0 && b <= full < x < full + b
  {
    full := x - x % b;
    assert full == b * (x / b);
    Unique(full, b, x / b, 0);
    Scale(b, x / b);
  }

  /** The same notion without division, which is what inductive invariants use. */
  predicate IsMultiple(x: nat, b: nat)
    requires b > 0
  {
    x == 0 || (x >= b && IsMultiple(x - b, b))
  }

  lemma {:induction false} IsMultipleExact(x: nat, b: nat)
    requires b > 0
    ensures IsMultiple(x, b) <==> x % b == 0
  {
    if x >= b {
      OneLess(x, b);
      IsMultipleExact(x - b, b);
    } else {
      Unique(x, b, 0, x);
    }
  }

  lemma MultiplesAdd(x: nat, y: nat, b: nat)
    requires b > 0 && IsMultiple(x, b) && IsMultiple(y, b)
    ensures IsMultiple(x + y, b)
    ensures y <= x ==> IsMultiple(x - y, b)
  {
    IsMultipleExact(x, b);
    IsMultipleExact(y, b);
    Sums(x, y, b);
    IsMultipleExact(x + y, b);
    if y <= x { IsMultipleExact(x - y, b); }
  }

  /** Two different multiples are at least one block apart. */
  lemma Apart(x: nat, y: nat, b: nat)
    requires b > 0 && x % b == 0 && y % b == 0 && y < x
    ensures x - y >= b
  {
    Sums(x, y, b);
    if x - y < b {
      Unique(x - y, b, 0, x - y);
    }
  }

  /** If `p` divides `q` and `q` divides `x` then `p` divides `x`. */
  lemma Chain(p: nat, q: nat, x: nat)
    requires p > 0 && q > 0 && q % p == 0 && x % q == 0
    ensures x % p == 0
  {
    var m, n := q / p, x / q;
    assert x == (p * m) * n == p * (m * n);
    Unique(x, p, m * n, 0);
  }

  /** The size of `n` blocks, again without nonlinear arithmetic. */
  function Times(n: nat, b: nat): nat {
    if n == 0 then 0 else Times(n - 1, b) + b
  }

  lemma {:induction false} TimesExact(n: nat, b: nat)
    ensures Times(n, b) == n * b
  {
    if n > 0 {
      TimesExact(n - 1, b);
      assert n * b == (n - 1) * b + b;
    }
  }

  lemma {:induction false} TimesIsMultiple(n: nat, b: nat)
    requires b > 0
    ensures IsMultiple(Times(n, b), b)
  {
    if n > 0 { TimesIsMultiple(n - 1, b); }
  }

  lemma TimesMonotone(m: nat, n: nat, b: nat)
    requires b > 0
    ensures m <= n <==> Times(m, b) <= Times(n, b)
  {
    TimesExact(m, b);
    TimesExact(n, b);
  }

  lemma TimesSum(m: nat, n: nat, b: nat)
    ensures Times(m + n, b) == Times(m, b) + Times(n, b)
  {
    TimesExact(m, b);
    TimesExact(n, b);
    TimesExact(m + n, b);
  }

  lemma TimesQuotient(x: nat, b: nat)
    requires b > 0
    ensures x == Times(x / b, b) + x % b
  {
    TimesExact(x / b, b);
  }

  /** Among the numbers less than one block above `k` blocks, only that multiple is one. */
  lemma TimesUnique(x: nat, k: nat, b: nat)
    requires b > 0 && Times(k, b) <= x < Times(k, b) + b
    ensures IsMultiple(x, b) <==> x == Times(k, b)
  {
    TimesExact(k, b);
    Unique(x, b, k, x - Times(k, b));
    IsMultipleExact(x, b);
  }
}
