// Division facts used where a size is symbolic.
module Arith {
  lemma MulMono(a: nat, b: nat, B: nat)
    requires a <= b
    ensures a * B <= b * B
  {
  }

  lemma DivMod(a: nat, B: nat, q: nat, r: nat)
    requires B > 0 && a == q * B + r && r < B
    ensures a / B == q && a % B == r
  {
    var q', r' := a / B, a % B;
    assert a == q' * B + r';
    assert (q' + 1) * B == q' * B + B && (q + 1) * B == q * B + B;
    if q' < q {
      MulMono(q' + 1, q, B);
    } else if q' > q {
      MulMono(q + 1, q', B);
    }
  }

  // Dividing by 256 and then by b.
  lemma DivTwice(n: nat, b: nat)
    requires b > 0
    ensures n / 256 / b == n / (256 * b)
  {
    var m, r := n / 256, n % 256;
    var q, t := m / b, m % b;
    assert m == q * b + t;
    assert q * (256 * b) == 256 * (q * b);
    DivMod(n, 256 * b, q, 256 * t + r);
  }
}
