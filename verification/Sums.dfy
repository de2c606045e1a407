/** Prefix sums over sequences of reals: the common language of every mass argument in this project. */
module Sums {

  /** The sum of the first k values. */
  function Prefix(p: seq<real>, k: nat): real
    requires k <= |p|
  {
    if k == 0 then 0.0 else Prefix(p, k - 1) + p[k - 1]
  }

  function Total(p: seq<real>): real {
    Prefix(p, |p|)
  }

  ghost predicate NonNegative(p: seq<real>) {
    forall i :: 0 <= i < |p| ==> p[i] >= 0.0
  }

  lemma PrefixMonotone(p: seq<real>, i: nat, j: nat)
    requires NonNegative(p) && i <= j <= |p|
    ensures 0.0 <= Prefix(p, i) <= Prefix(p, j)
  {
    if j == 0 {
    } else if i < j {
      PrefixMonotone(p, i, j - 1);
    } else {
      PrefixMonotone(p, i - 1, j - 1);
    }
  }

  /** Sequences that agree on their first k values have the same k-th prefix sum. */
  lemma PrefixAgree(p: seq<real>, q: seq<real>, k: nat)
    requires k <= |p| && k <= |q|
    requires forall i :: 0 <= i < k ==> p[i] == q[i]
    ensures Prefix(p, k) == Prefix(q, k)
  {
    if k > 0 {
      PrefixAgree(p, q, k - 1);
    }
  }

  /** Appending one value adds it to the total. */
  lemma TotalAppend(p: seq<real>, x: real)
    ensures Total(p + [x]) == Total(p) + x
  {
    PrefixAgree(p + [x], p, |p|);
  }

  /** A run of zeros adds nothing. */
  lemma PrefixZeros(p: seq<real>, i: nat, j: nat)
    requires i <= j <= |p|
    requires forall k :: i <= k < j ==> p[k] == 0.0
    ensures Prefix(p, j) == Prefix(p, i)
  {
    if i < j {
      PrefixZeros(p, i, j - 1);
    }
  }

  /** A product as a function, for proofs that need no arithmetic on its factors. */
  function Times(a: real, b: real): real {
    a * b
  }

  lemma TimesDistributes(c: real, x: real, y: real)
    ensures Times(c, x + y) == Times(c, x) + Times(c, y)
  {
  }

  /** If r is pointwise a + c * b, so are its prefix sums. */
  lemma {:induction false} PrefixLinear(r: seq<real>, a: seq<real>, c: real, b: seq<real>, k: nat)
    requires k <= |r| && k <= |a| && k <= |b|
    requires forall i :: 0 <= i < k ==> r[i] == a[i] + Times(c, b[i])
    ensures Prefix(r, k) == Prefix(a, k) + Times(c, Prefix(b, k))
  {
    if k > 0 {
      hide Times;
      PrefixLinear(r, a, c, b, k - 1);
      TimesDistributes(c, Prefix(b, k - 1), b[k - 1]);
    }
  }

  /** Replacing one value changes the prefix sum by the difference. */
  lemma PrefixUpdate(p: seq<real>, at: nat, x: real, k: nat)
    requires at < |p| && k <= |p|
    ensures Prefix(p[at := x], k) == Prefix(p, k) + (if at < k then x - p[at] else 0.0)
  {
    if k > 0 {
      PrefixUpdate(p, at, x, k - 1);
    }
  }

  /** The product of the first k values. */
  function Product(p: seq<real>, k: nat): real
    requires k <= |p|
  {
    if k == 0 then 1.0 else Product(p, k - 1) * p[k - 1]
  }

  lemma ProductNonNegative(a: real, b: real)
    requires a >= 0.0 && b >= 0.0
    ensures a * b >= 0.0
  {
  }

  lemma ProductMonotone(a: real, b: real, c: real)
    requires a <= b && c >= 0.0
    ensures a * c <= b * c
  {
    ProductNonNegative(b - a, c);
    assert (b - a) * c == b * c - a * c;
  }

  lemma ProductOrder(n: real, m: real, a: real, b: real)
    requires 0.0 <= n <= m && 0.0 <= a <= b
    ensures 0.0 <= n * a <= m * b
  {
    ProductNonNegative(n, a);
    ProductMonotone(n, m, a);
    ProductMonotone(a, b, m);
    assert m * a == a * m && m * b == b * m;
  }

  ghost predicate Below(p: seq<real>, q: seq<real>) {
    |p| == |q| && forall i :: 0 <= i < |p| ==> 0.0 <= p[i] <= q[i]
  }

  lemma {:induction false} ProductsOrdered(p: seq<real>, q: seq<real>, k: nat)
    requires Below(p, q) && k <= |p|
    ensures 0.0 <= Product(p, k) <= Product(q, k)
  {
    if k > 0 {
      ProductsOrdered(p, q, k - 1);
      ProductOrder(Product(p, k - 1), Product(q, k - 1), p[k - 1], q[k - 1]);
    }
  }

  lemma {:induction false} ProductOfOnes(p: seq<real>, k: nat)
    requires k <= |p| && forall i :: 0 <= i < k ==> p[i] == 1.0
    ensures Product(p, k) == 1.0
  {
    if k > 0 {
      ProductOfOnes(p, k - 1);
    }
  }

  lemma ProductAgree(p: seq<real>, q: seq<real>, k: nat)
    requires k <= |p| && k <= |q| && forall i :: 0 <= i < k ==> p[i] == q[i]
    ensures Product(p, k) == Product(q, k)
  {
    if k > 0 {
      ProductAgree(p, q, k - 1);
    }
  }

  /** Products of factors in [0, 1] differ by at most the sum of the differences of the factors. */
  lemma {:induction false} ProductsClose(p: seq<real>, q: seq<real>, gap: seq<real>, k: nat)
    requires Below(p, q) && |gap| == |p| && k <= |p|
    requires forall i :: 0 <= i < |p| ==> q[i] <= 1.0 && q[i] - p[i] <= gap[i]
    ensures 0.0 <= Product(p, k) <= Product(q, k) <= 1.0
    ensures Product(q, k) - Product(p, k) <= Prefix(gap, k)
  {
    if k > 0 {
      ProductsClose(p, q, gap, k - 1);
      CloseStep(Product(p, k - 1), Product(q, k - 1), p[k - 1], q[k - 1]);
    }
  }

  lemma CloseStep(n: real, m: real, a: real, b: real)
    requires 0.0 <= n <= m <= 1.0 && 0.0 <= a <= b <= 1.0
    ensures 0.0 <= n * a <= m * b <= 1.0
    ensures m * b - n * a <= (m - n) + (b - a)
  {
    ProductOrder(n, m, a, b);
    ProductOrder(m, 1.0, b, 1.0);
    ProductOrder(m, 1.0, b - a, b - a);
    ProductOrder(m - n, m - n, a, 1.0);
    assert m * b - n * a == m * (b - a) + (m - n) * a;
  }

  lemma {:induction false} ProductPositive(q: seq<real>, k: nat)
    requires k <= |q| && forall i :: 0 <= i < |q| ==> q[i] > 0.0
    ensures Product(q, k) > 0.0
  {
    if k > 0 {
      ProductPositive(q, k - 1);
      PositiveStep(Product(q, k - 1), q[k - 1]);
    }
  }

  lemma PositiveStep(a: real, b: real)
    requires a > 0.0 && b > 0.0
    ensures a * b > 0.0
  {
  }

  lemma {:induction false} ProductVanishes(q: seq<real>, k: nat, i: nat)
    requires i < k <= |q| && q[i] == 0.0
    ensures Product(q, k) == 0.0
  {
    if i < k - 1 {
      ProductVanishes(q, k - 1, i);
    }
  }

  /** Ordered products agree if and only if the larger one has a zero factor or all factors agree. */
  lemma ProductsAgreeIff(p: seq<real>, q: seq<real>)
    requires Below(p, q)
    ensures Product(p, |p|) == Product(q, |q|) <==> (exists i :: 0 <= i < |q| && q[i] == 0.0) || p == q
  {
    hide Product;
    if i :| 0 <= i < |q| && q[i] == 0.0 {
      ProductVanishes(q, |q|, i);
      ProductVanishes(p, |p|, i);
    } else if p != q {
      PositiveProductsDiffer(p, q, |p|);
    }
  }

  /** With positive factors, a smaller factor makes the product smaller. */
  lemma {:induction false} PositiveProductsDiffer(p: seq<real>, q: seq<real>, k: nat)
    requires Below(p, q) && k <= |p| && forall i :: 0 <= i < |q| ==> q[i] > 0.0
    ensures p[..k] != q[..k] ==> Product(p, k) < Product(q, k)
  {
    hide Product;
    if k > 0 {
      PositiveProductsDiffer(p, q, k - 1);
      ProductsOrdered(p, q, k - 1);
      ProductPositive(q, k - 1);
      assert p[..k] == p[..k - 1] + [p[k - 1]] && q[..k] == q[..k - 1] + [q[k - 1]];
      ProductUnfolds(p, k);
      ProductUnfolds(q, k);
      SmallerStep(Product(p, k - 1), Product(q, k - 1), p[k - 1], q[k - 1]);
    }
  }

  lemma ProductUnfolds(p: seq<real>, k: nat)
    requires 0 < k <= |p|
    ensures Product(p, k) == Times(Product(p, k - 1), p[k - 1])
  {
  }

  lemma SmallerStep(n: real, m: real, a: real, b: real)
    requires 0.0 <= n <= m && 0.0 <= a <= b && m > 0.0 && b > 0.0
    ensures n < m || a < b ==> Times(n, a) < Times(m, b)
  {
    if n < m {
      ProductMonotone(a, b, n);
      PositiveStep(m - n, b);
      assert (m - n) * b == m * b - n * b && a * n == n * a && b * n == n * b;
    } else if a < b {
      PositiveStep(m, b - a);
      assert m * (b - a) == m * b - m * a;
    }
  }
}
