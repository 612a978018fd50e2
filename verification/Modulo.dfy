/** The few facts about remainders that ring indices need. */
module Modulo {

  lemma {:induction false} MultipleDropsOut(q: nat, r: nat, c: nat)
    requires r < c
    ensures (q * c + r) % c == r
  {
    if q > 0 {
      MultipleDropsOut(q - 1, r, c);
      SubtractOnce(q * c + r, c);
      assert q * c + r - c == (q - 1) * c + r;
    }
  }

  lemma ProductSign(d: int, c: nat)
    ensures d >= 0 ==> d * c >= 0
    ensures d >= 1 ==> d * c >= c
    ensures d <= -1 ==> d * c + c <= 0
  {
    if d >= 1 {
      assert d * c == c + (d - 1) * c;
    } else if d <= -1 {
      assert d * c + c == (d + 1) * c;
    }
  }

  lemma SubtractOnce(x: nat, c: nat)
    requires 0 < c <= x
    ensures x % c == (x - c) % c
  {
    var d := x / c - 1 - (x - c) / c;
    ProductSign(d, c);
    assert d * c == (x - c) % c - x % c;
  }

  /** `(t + d) % c` from `t % c`, as long as the step stays within one turn. */
  lemma Advance(t: nat, d: nat, c: nat)
    requires 0 < c && d <= c
    ensures (t + d) % c == if t % c + d < c then t % c + d else t % c + d - c
  {
    var q, r := t / c, t % c;
    assert t == q * c + r;
    if r + d < c {
      MultipleDropsOut(q, r + d, c);
    } else {
      MultipleDropsOut(q + 1, r + d - c, c);
      assert (q + 1) * c + (r + d - c) == t + d;
    }
  }

  lemma Small(x: nat, c: nat)
    requires 0 < c && x < 2 * c
    ensures x % c == if x < c then x else x - c
  {
    if c <= x {
      SubtractOnce(x, c);
    }
  }

  /** The quotient named by its defining inequalities. */
  lemma QuotientIs(x: nat, q: nat, c: nat)
    requires q * c <= x < q * c + c
    ensures x / c == q
  {
    var d := x / c - q;
    ProductSign(d, c);
    assert d * c == x - q * c - x % c;
  }

  lemma QuotientBelow(x: nat, n: nat, c: nat)
    requires c > 0 && x < n * c
    ensures x / c < n
  {
    var d := x / c - n;
    ProductSign(d, c);
    assert d * c == x - n * c - x % c;
  }

  lemma QuotientGrows(x: nat, d: nat, c: nat)
    requires c > 0
    ensures x / c <= (x + d) / c
    ensures d >= c ==> x / c < (x + d) / c
  {
    var e := (x + d) / c - x / c;
    ProductSign(e, c);
    assert e * c == d + x % c - (x + d) % c;
  }

  lemma {:induction false} TimesGrows(a: nat, b: nat, c: nat)
    requires a <= b
    ensures a * c <= b * c
  {
    assert b * c == a * c + (b - a) * c;
  }

  lemma DivisionIs(x: nat, n: nat)
    requires n > 0
    ensures x / n * n <= x < (x / n + 1) * n
  {
    assert x == n * (x / n) + x % n;
  }
}
