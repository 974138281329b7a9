/** Dividing a byte count into whole blocks. */
module Blocks {

  /** The largest multiple of the block size that fits. */
  function Whole(n: nat, b: nat): (w: nat)
    requires b > 0
    ensures w <= n < w + b
  {
    n - n % b
  }

  lemma MulAtLeast(x: int, b: int)
    requires x >= 1 && b > 0
    ensures x * b >= b
  {
  }

  lemma DivModUnique(n: int, b: int, q: int, r: int)
    requires b > 0 && 0 <= r < b && n == q * b + r
    ensures n / b == q && n % b == r
  {
    var q', r' := n / b, n % b;
    assert n == q' * b + r';
    assert (q - q') * b == r' - r;
    if q > q' {
      MulAtLeast(q - q', b);
    } else if q < q' {
      MulAtLeast(q' - q, b);
    }
  }

  lemma ModOfSum(a: nat, n: nat, b: nat)
    requires b > 0 && a % b == 0
    ensures (a + n) % b == n % b
    ensures Whole(a + n, b) == a + Whole(n, b)
  {
    var qa, qn := a / b, n / b;
    assert a == qa * b && n == qn * b + n % b;
    assert a + n == (qa + qn) * b + n % b;
    DivModUnique(a + n, b, qa + qn, n % b);
  }

  lemma WholeIsAligned(n: nat, b: nat)
    requires b > 0
    ensures Whole(n, b) % b == 0
  {
    assert Whole(n, b) == (n / b) * b + 0;
    DivModUnique(Whole(n, b), b, n / b, 0);
  }

  lemma AlignedMinusBlock(n: nat, b: nat)
    requires b > 0 && n % b == 0 && n > 0
    ensures n >= b && (n - b) % b == 0
  {
    if n < b {
      DivModUnique(n, b, 0, n);
    }
    assert n == (n / b) * b;
    assert n - b == (n / b - 1) * b + 0;
    DivModUnique(n - b, b, n / b - 1, 0);
  }

  lemma AlignedSum(a: nat, c: nat, b: nat)
    requires b > 0 && a % b == 0 && c % b == 0
    ensures (a + c) % b == 0
  {
    ModOfSum(a, c, b);
  }

  lemma SmallIsItsRemainder(n: nat, b: nat)
    requires n < b
    ensures n % b == n && Whole(n, b) == 0
  {
    DivModUnique(n, b, 0, n);
  }

  lemma NextIsAligned(n: nat, b: nat)
    requires b > 0 && n % b == 0
    ensures (n + b) % b == 0
  {
    DivModUnique(b, b, 1, 0);
    AlignedSum(n, b, b);
  }

  /** Reducing early changes nothing. */
  lemma ModEarly(x: nat, y: nat, b: nat)
    requires b > 0
    ensures (x % b + y) % b == (x + y) % b
  {
    assert x == Whole(x, b) + x % b;
    WholeIsAligned(x, b);
    ModOfSum(Whole(x, b), x % b + y, b);
  }

  lemma MultipleIsAligned(q: nat, b: nat)
    requires b > 0
    ensures (q * b) % b == 0
  {
    DivModUnique(q * b, b, q, 0);
  }

  /** An aligned count below a bound that is aligned too leaves room for a whole block. */
  lemma RoomForBlock(n: nat, m: nat, b: nat)
    requires b > 0 && n % b == 0 && m % b == 0 && n < m
    ensures n + b <= m
  {
    var qn, qm := n / b, m / b;
    assert n == qn * b && m == qm * b;
    assert (qm - qn) * b == m - n;
    if qm <= qn {
      assert (qn - qm) * b == n - m;
      if qn > qm { MulAtLeast(qn - qm, b); }
    } else {
      MulAtLeast(qm - qn, b);
    }
  }

  /** n divided by m, rounded up. */
  function CeilDiv(n: nat, m: nat): nat
    requires m > 0
  {
    if n == 0 then 0 else (n - 1) / m + 1
  }

  /** Rounding up, by its bounds. */
  lemma CeilDivIs(n: nat, m: nat, k: nat)
    requires m > 0
    requires n <= k * m
    requires k > 0 ==> (k - 1) * m < n
    ensures CeilDiv(n, m) == k
  {
    if k > 0 {
      var r := n - 1 - (k - 1) * m;
      assert k * m == (k - 1) * m + m;
      DivModUnique(n - 1, m, k - 1, r);
    } else {
      assert k * m == 0;
    }
  }
}
