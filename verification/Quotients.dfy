/** Quotients and products of natural numbers, compared. */
module Quotients {
  lemma Division(p: nat, d: nat, c: nat)
    requires d > 0
    ensures p / d <= c <==> p < (c + 1) * d
  {
    if p / d <= c {
      assert p < (p / d + 1) * d <= (c + 1) * d;
    } else {
      assert (c + 1) * d <= (p / d) * d <= p;
    }
  }

  lemma DivisionFrom(q: nat, s: nat, i: nat)
    requires s > 0
    ensures i <= q / s <==> i * s <= q
  {
    if i <= q / s {
      assert i * s <= (q / s) * s <= q;
    } else {
      assert q < (q / s + 1) * s <= i * s;
    }
  }

  lemma QuotientsGrow(p: nat, q: nat, d: nat)
    requires 0 < d && p <= q
    ensures p / d <= q / d
  {
    Division(q, d, q / d);
    Division(p, d, q / d);
  }

  lemma Product(a: nat, b: nat, n: nat)
    requires a <= b
    ensures a * n <= b * n && n * a == a * n && n * b == b * n
  {
  }
}
