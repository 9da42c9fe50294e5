/** Dividing twice is dividing by the product. */
module Division {

  lemma DivideTwice(n: nat, a: nat, b: nat)
    requires a >= 1 && b >= 1
    ensures a * b >= 1 && n / a / b == n / (a * b)
  {
    var m, x := n / a, n % a;
    var q, y := m / b, m % b;
    Regroup(a, b, q, y);
    Within(a, b, x, y);
    Parts(n, a);
    Parts(m, b);
    QuotientUnique(n, a * b, q, a * y + x);
  }

  lemma Parts(n: nat, d: nat)
    requires d >= 1
    ensures n == d * (n / d) + n % d && n % d < d
  {
  }

  lemma Regroup(a: nat, b: nat, q: nat, y: nat)
    ensures a * (b * q + y) == (a * b) * q + a * y
  {
  }

  lemma Within(a: nat, b: nat, x: nat, y: nat)
    requires x < a && y < b
    ensures 0 <= a * y && a * y + x < a * b
  {
    assert a * b == a * (b - y) + a * y;
    Multiple(a, b - y);
  }

  lemma QuotientUnique(n: nat, d: nat, q: nat, rem: nat)
    requires n == d * q + rem && rem < d
    ensures n / d == q
  {
    var k := n / d;
    assert n == d * k + n % d;
    assert d * (k - q) == d * k - d * q;
    if k > q {
      Multiple(d, k - q);
    } else if k < q {
      Multiple(d, q - k);
    }
  }

  lemma Multiple(d: nat, k: int)
    requires k >= 1
    ensures d * k >= d && d * -k == -(d * k)
  {
  }
}
