/** The special functions the derivative evaluator takes from scipy.special
    (comb, perm, eval_hermite), written out as exact recurrences over the
    naturals and the reals, together with the integer power used for the
    relative coordinates. */
module Special {

  /** x raised to a natural power; Pow(0.0, 0) is 1.0, as 0.0 ** 0 is in numpy. */
  function Pow(x: real, n: nat): real
  {
    if n == 0 then 1.0 else x * Pow(x, n - 1)
  }

  function Fact(n: nat): (r: nat)
    ensures r >= 1
  {
    if n == 0 then 1 else n * Fact(n - 1)
  }

  /** Binomial coefficient C(n, k), built by Pascal's rule; like
      scipy.special.comb it is 0 when k < 0 or k > n. */
  function Comb(n: nat, k: int): (r: nat)
    ensures r > 0 <==> 0 <= k <= n
  {
    if k < 0 || k > n then 0
    else if k == 0 || k == n then 1
    else Comb(n - 1, k - 1) + Comb(n - 1, k)
  }

  /** Number of k-permutations of n, the falling factorial n (n-1) ... (n-k+1);
      like scipy.special.perm it is 0 when k < 0 or k > n. */
  function Perm(n: nat, k: int): (r: nat)
    ensures r > 0 <==> 0 <= k <= n
  {
    if k < 0 || k > n then 0
    else if k == 0 then 1
    else n * Perm(n - 1, k - 1)
  }

  /** The falling factorial agrees with n! / (n-k)!. */
  lemma {:induction false} PermFactorial(n: nat, k: nat)
    requires k <= n
    ensures Perm(n, k) * Fact(n - k) == Fact(n)
  {
    if k > 0 {
      PermFactorial(n - 1, k - 1);
      var p, f := Perm(n - 1, k - 1), Fact(n - k);
      assert Perm(n, k) == n * p;
      assert Fact(n) == n * Fact(n - 1);
      assert p * f == Fact(n - 1);
      MulAssoc(n, p, f);
    }
  }

  lemma MulAssoc(a: int, b: int, c: int)
    ensures (a * b) * c == a * (b * c)
  {
  }

  /** Peeling the last factor off the falling factorial. */
  lemma {:induction false} PermLastFactor(m: nat, k: nat)
    requires 1 <= k <= m
    ensures Perm(m, k) == Perm(m, k - 1) * (m - k + 1)
  {
    if k > 1 {
      PermLastFactor(m - 1, k - 1);
      var p := Perm(m - 1, k - 2);
      assert Perm(m - 1, k - 1) == p * (m - k + 1);
      assert Perm(m, k) == m * Perm(m - 1, k - 1);
      assert Perm(m, k - 1) == m * p;
      MulAssoc(m, p, m - k + 1);
    }
  }

  /** Pascal's rule agrees with the textbook definition C(n, k) k! = n! / (n-k)!. */
  lemma {:induction false} CombFactorial(n: nat, k: nat)
    requires k <= n
    ensures Comb(n, k) * Fact(k) == Perm(n, k)
  {
    if k == n {
      PermFactorial(n, n);
    } else if k > 0 {
      CombFactorial(n - 1, k - 1);
      CombFactorial(n - 1, k);
      PermLastFactor(n - 1, k);
      var left, right := Comb(n - 1, k - 1), Comb(n - 1, k);
      assert Comb(n, k) == left + right;
      assert Fact(k) == k * Fact(k - 1);
      assert Perm(n, k) == n * Perm(n - 1, k - 1);
      PascalStep(left, right, k, Fact(k - 1), Perm(n - 1, k - 1), n);
    }
  }

  lemma PascalStep(left: int, right: int, k: int, f: int, p: int, n: int)
    requires left * f == p
    requires right * (k * f) == p * (n - k)
    ensures (left + right) * (k * f) == n * p
  {
    calc {
      (left + right) * (k * f);
      left * (k * f) + right * (k * f);
      { MulAssoc(left, k, f); }
      k * (left * f) + p * (n - k);
      k * p + p * (n - k);
      n * p;
    }
  }

  /** Physicists' Hermite polynomial H_n(x), by the three-term recurrence
      H_0 = 1, H_1 = 2x, H_(n+1) = 2x H_n - 2n H_(n-1). */
  function Hermite(n: nat, x: real): real
  {
    if n == 0 then 1.0
    else if n == 1 then 2.0 * x
    else 2.0 * x * Hermite(n - 1, x) - 2.0 * (n - 1) as real * Hermite(n - 2, x)
  }

  /** Odd Hermite polynomials vanish at the origin. */
  lemma {:induction false} HermiteOddAtZero(n: nat)
    requires n % 2 == 1
    ensures Hermite(n, 0.0) == 0.0
  {
    if n > 1 {
      HermiteOddAtZero(n - 2);
      assert Hermite(n, 0.0) == 2.0 * 0.0 * Hermite(n - 1, 0.0) - 2.0 * (n - 1) as real * 0.0;
    }
  }
}
