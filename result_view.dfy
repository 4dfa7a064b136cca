/**
 * The result screen: it shows the score, the number of questions and a
 * percentage computed with Java's truncating integer division.
 */
module ResultView {

  function Abs(x: int): nat {
    if x < 0 then -x else x
  }

  /** Java's `a / b` on int: the quotient rounded toward zero (overflow is not modelled). */
  function TruncDiv(a: int, b: int): (q: int)
    requires b != 0
    ensures Abs(q) * Abs(b) <= Abs(a) < (Abs(q) + 1) * Abs(b)
    ensures (a >= 0) == (b > 0) ==> q >= 0
    ensures (a >= 0) != (b > 0) ==> q <= 0
  {
    var na, nb := Abs(a), Abs(b);
    var m := na / nb;
    DivBounds(na, nb);
    assert m * nb <= na < (m + 1) * nb;
    if (a < 0) == (b < 0) then m else -m
  }

  /** Euclidean division of naturals brackets the dividend between two multiples of the divisor. */
  lemma DivBounds(n: nat, d: nat)
    requires d > 0
    ensures (n / d) * d <= n < (n / d + 1) * d
  {
    var q, r := n / d, n % d;
    assert n == q * d + r && 0 <= r < d;
    assert (q + 1) * d == q * d + d;
  }

  /** With a positive factor, the sign of a product is the sign of the other factor. */
  lemma SignOfProduct(x: int, t: int)
    requires t > 0
    ensures x > 0 <==> x * t > 0
  {
    if x > 0 {
      PositiveProduct(x, t);
    } else {
      PositiveProduct(t, -x + 1);
      assert x * t == t - (-x + 1) * t;
    }
  }

  lemma PositiveProduct(x: int, t: int)
    requires x > 0 && t > 0
    ensures x * t >= t
  {
    assert x * t == (x - 1) * t + t;
    assert (x - 1) * t >= 0;
  }

  /** What the screen displays: the score and total it was given and the percentage. */
  datatype Summary = Summary(score: int, total: int, percent: int)

  /** The percentage label: 0 for an empty quiz, otherwise `score*100/total` truncated. */
  function Percentage(score: int, total: int): (p: int)
    ensures total == 0 ==> p == 0
    ensures 0 <= score && 0 < total ==> p * total <= score * 100 < (p + 1) * total
  {
    if total == 0 then 0 else TruncDiv(score * 100, total)
  }

  function Show(score: int, total: int): (r: Summary)
    ensures r.score == score && r.total == total
    ensures r.percent == Percentage(score, total)
  {
    Summary(score, total, Percentage(score, total))
  }

  /** A score between zero and the number of questions yields a percentage between 0 and 100. */
  lemma PercentageInRange(score: int, total: int)
    requires 0 <= score <= total
    ensures 0 <= Percentage(score, total) <= 100
  {
    if total > 0 {
      var p := Percentage(score, total);
      assert (p - 100) * total == p * total - 100 * total;
      SignOfProduct(p - 100, total);
      SignOfProduct(p + 1, total);
    }
  }

  /** A perfect score on a non-empty quiz shows exactly 100 percent. */
  lemma PercentageFull(total: int)
    requires total > 0
    ensures Percentage(total, total) == 100
  {
    var p := Percentage(total, total);
    assert (p - 100) * total == p * total - 100 * total;
    assert (p - 99) * total == (p + 1) * total - 100 * total;
    SignOfProduct(p - 100, total);
    SignOfProduct(p - 99, total);
  }
}
