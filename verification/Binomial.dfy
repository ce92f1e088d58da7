/** The running product that computes a binomial coefficient, and the smallest
    group size whose rank-test floor clears the significance level. */
module Binomial {

  /** Binomial coefficients by Pascal's rule. */
  function Choose(n: nat, k: nat): nat {
    if k == 0 then 1
    else if n == 0 then 0
    else Choose(n - 1, k - 1) + Choose(n - 1, k)
  }

  lemma Distribute(x: int, y: int, z: int)
    ensures x * (y + z) == x * y + x * z
    ensures (x + y) * z == x * z + y * z
  {
  }

  lemma PascalArithmetic(n: int, k: int, a: int, b: int, c: int)
    requires k * b == (n - k) * a && (k + 1) * c == (n - 1 - k) * b
    ensures (k + 1) * (b + c) == (n - k) * (a + b)
  {
    Distribute(k + 1, b, c);
    Distribute(n - k, a, b);
    Distribute(k + 1, n - 1 - k, b);
    Distribute(k, n - k, b);
  }

  /** One factor of the running product leads to the next coefficient. */
  lemma {:induction false} ChooseStep(n: nat, k: nat)
    ensures (k + 1) * Choose(n, k + 1) == (n - k) * Choose(n, k)
  {
    if n == 0 {
      assert Choose(0, k + 1) == 0;
    } else {
      ChooseStep(n - 1, k);
      if k == 0 {
        assert Choose(n - 1, 0) == 1;
      } else {
        ChooseStep(n - 1, k - 1);
        PascalArithmetic(n, k, Choose(n - 1, k - 1), Choose(n - 1, k), Choose(n - 1, k + 1));
      }
    }
  }

  lemma {:induction false} ChoosePositive(n: nat, k: nat)
    ensures Choose(n, k) > 0 <==> k <= n
  {
    if n > 0 && k > 0 {
      ChoosePositive(n - 1, k - 1);
      ChoosePositive(n - 1, k);
    }
  }

  lemma {:induction false} RealProduct(x: nat, y: int)
    ensures (x * y) as real == x as real * y as real
  {
    if x > 0 {
      RealProduct(x - 1, y);
      Distribute(x - 1, 1, y);
      assert x as real == (x - 1) as real + 1.0;
      assert ((x - 1) as real + 1.0) * y as real == (x - 1) as real * y as real + y as real;
    }
  }

  lemma Quotient(d: real, x: real, y: real)
    requires d != 0.0 && x == d * y
    ensures x / d == y
  {
  }

  /** One turn of the product, over the reals. */
  lemma ProductStep(n: nat, i: nat)
    ensures Choose(n, i) as real * (n - i) as real / (i + 1) as real == Choose(n, i + 1) as real
  {
    hide Choose;
    ChooseStep(n, i);
    var x, y := Choose(n, i), Choose(n, i + 1);
    RealProduct(x, n - i);
    RealProduct(i + 1, y);
    assert x * (n - i) == (n - i) * x;
    Quotient((i + 1) as real, x as real * (n - i) as real, y as real);
  }

  /** After i turns the product is exactly the i-th coefficient. */
  method BinomialOf(n: int, k: int) returns (r: real)
    ensures n >= 0 && k >= 0 ==> r == Choose(n, k) as real
    ensures k <= 0 ==> r == 1.0
  {
    r := 1.0;
    var i := 0;
    while i < k
      invariant 0 <= i && (k >= 0 ==> i <= k) && (k < 0 ==> i == 0)
      invariant n >= 0 ==> r == Choose(n, i) as real
      invariant i == 0 ==> r == 1.0
    {
      if n >= 0 {
        ProductStep(n, i);
      }
      r := r * (n - i) as real / (i + 1) as real;
      i := i + 1;
    }
  }
}
