/** Facts about Euclidean division on natural numbers that the planners rely on. */
module Arith {

  /**
   * The number of steps of size `b` a counter starting at 0 takes before it
   * reaches `a`; for `b > 0` this is the ceiling of `a / b`. A counter that
   * does not move (`b == 0`) reaches only `a == 0`.
   */
  function CeilDiv(a: nat, b: nat): nat
    requires b > 0 || a == 0
  {
    if a == 0 then 0 else (a + b - 1) / b
  }

  /** The quotient is the unique `q` with `q * b <= x < q * b + b`. */
  lemma DivUnique(x: nat, b: nat, q: nat)
    requires b > 0
    requires q * b <= x < q * b + b
    ensures x / b == q && x % b == x - q * b
  {
    var d := x / b;
    if d < q {
      MulLeft(d + 1, q, b);
    } else if d > q {
      MulLeft(q + 1, d, b);
    }
  }

  lemma MulLeft(i: nat, j: nat, b: nat)
    requires i <= j
    ensures i * b <= j * b
  {
  }

  lemma MulStrict(i: nat, j: nat, b: nat)
    requires i < j && b > 0
    ensures i * b < j * b
  {
  }

  /** `CeilDiv(a, b)` is the one step count whose last step reaches `a` but whose
      previous one did not. */
  lemma CeilDivIff(a: nat, b: nat, k: nat)
    requires b > 0
    ensures k == CeilDiv(a, b) <==> a <= k * b < a + b
  {
    if a == 0 {
      if k > 0 {
        MulLeft(1, k, b);
      }
    } else {
      var x := a + b - 1;
      if a <= k * b < a + b {
        assert k > 0;
        assert (k - 1) * b + b == k * b;
        DivUnique(x, b, k);
      } else {
        var q := x / b;
        assert q * b <= x < q * b + b;
        assert a <= q * b < a + b;
      }
    }
  }

  /** One more step of the counter `k`: how its quotient and remainder by `n` move. */
  lemma DivModSucc(k: nat, n: nat)
    requires n > 0
    ensures k % n + 1 < n ==> (k + 1) / n == k / n && (k + 1) % n == k % n + 1
    ensures k % n + 1 == n ==> (k + 1) / n == k / n + 1 && (k + 1) % n == 0
  {
    var q, r := k / n, k % n;
    assert k == q * n + r;
    if r + 1 < n {
      DivUnique(k + 1, n, q);
    } else {
      assert k + 1 == (q + 1) * n;
      DivUnique(k + 1, n, q + 1);
    }
  }

  /** `c + j * n` with `c < n` has quotient `j` and remainder `c`. */
  lemma DivModOfSum(c: nat, j: nat, n: nat)
    requires c < n
    ensures (c + j * n) / n == j && (c + j * n) % n == c
  {
    DivUnique(c + j * n, n, j);
  }
}
