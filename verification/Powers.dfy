/** Powers, used to state what shifts and masks do to unbounded integers. */
module Powers {

  function Pow(base: nat, exponent: nat): (r: nat)
    ensures base > 0 ==> r > 0
  {
    if exponent == 0 then 1 else base * Pow(base, exponent - 1)
  }

  lemma MulMonotone(a: nat, b: nat, c: nat)
    requires a <= b
    ensures a * c <= b * c
  {
  }

  lemma {:induction false} PowMonotone(base: nat, m: nat, n: nat)
    requires base > 0 && m <= n
    ensures Pow(base, m) <= Pow(base, n)
  {
    if m < n {
      PowMonotone(base, m, n - 1);
      var p := Pow(base, n - 1);
      assert p <= base * p;
    }
  }

  lemma QuotientIs(n: nat, d: nat, q: nat, r: nat)
    requires n == q * d + r && r < d
    ensures n / d == q
  {
    var (p, m) := (n / d, n % d);
    assert n == p * d + m;
    if p < q {
      MulMonotone(p + 1, q, d);
      OneMoreTimes(p, d);
    } else if p > q {
      MulMonotone(q + 1, p, d);
      OneMoreTimes(q, d);
    }
  }

  lemma OneMoreTimes(a: nat, b: nat)
    ensures (a + 1) * b == a * b + b
  {
  }
}
