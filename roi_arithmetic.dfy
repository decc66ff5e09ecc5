/**
  The arithmetic the ROI estimate is made of. Every product in the estimate is
  an amount of money times a whole number (a percentage from 0 to 100, a month
  count from 1 to 24), so it is defined here by repeated addition, `Times`, and
  shown equal to the real product once, in `TimesIsProduct`; everything else is
  proved by linear reasoning and induction on the count. The two quotients of
  the estimate (ROI and the payback quotient) go through `Ratio` and
  `CeilQuotient`, whose facts are proved on plain numbers.
*/
module RoiArithmetic {

  /** `x` added up `n` times: the product `x * n`. */
  function Times(x: real, n: nat): (r: real)
    ensures x >= 0.0 ==> r >= 0.0
    ensures x <= 0.0 ==> r <= 0.0
    ensures n >= 1 && x >= 0.0 ==> r >= x
    ensures r == 0.0 <==> x == 0.0 || n == 0
  {
    if n == 0 then 0.0 else Times(x, n - 1) + x
  }

  /** `p` percent of the amount `x`, as `x * (p / 100)`. */
  function OfPercent(x: real, p: nat): (r: real)
    requires x >= 0.0 && p <= 100
    ensures 0.0 <= r <= x
    ensures r == 0.0 <==> x == 0.0 || p == 0
    ensures p == 100 ==> r == x
  {
    TimesMonotoneCount(x, p, 100);
    TimesIsProduct(x, 100);
    Times(x, p) / 100.0
  }

  /** The quotient `n / d` for a positive `d`: the number that `d` times gives `n`. */
  function Ratio(n: real, d: real): (q: real)
    requires d > 0.0
    ensures d * q == n
  {
    n / d
  }

  /** Python's `math.ceil`: the least integer not below `x`, written with `.Floor`. */
  function Ceil(x: real): (n: int)
    ensures x <= n as real < x + 1.0
  {
    if x.Floor as real == x then x.Floor else x.Floor + 1
  }

  /** Repeated addition is multiplication. */
  lemma {:induction false} TimesIsProduct(x: real, n: nat)
    ensures Times(x, n) == x * n as real
  {
    if n > 0 {
      TimesIsProduct(x, n - 1);
      assert x * (n - 1) as real + x == x * n as real;
    }
  }

  /** A percentage is the product with the fraction `p / 100`. */
  lemma OfPercentIsProduct(x: real, p: nat)
    requires x >= 0.0 && p <= 100
    ensures OfPercent(x, p) == x * (p as real / 100.0)
  {
    TimesIsProduct(x, p);
  }

  /** A percentage accumulated over `n` months is the product `x * (p / 100) * n`. */
  lemma TimesOfPercentIsProduct(x: real, p: nat, n: nat)
    requires x >= 0.0 && p <= 100
    ensures Times(OfPercent(x, p), n) == x * (p as real / 100.0) * n as real
  {
    OfPercentIsProduct(x, p);
    TimesIsProduct(OfPercent(x, p), n);
  }

  /** A percentage of a percentage is the product `x * (p / 100) * (q / 100)`. */
  lemma OfPercentOfPercentIsProduct(x: real, p: nat, q: nat)
    requires x >= 0.0 && p <= 100 && q <= 100
    ensures OfPercent(OfPercent(x, p), q) == x * (p as real / 100.0) * (q as real / 100.0)
  {
    OfPercentIsProduct(x, p);
    OfPercentIsProduct(OfPercent(x, p), q);
  }

  /** Evaluating an accumulation from its product, for worked examples. */
  lemma TimesValue(x: real, n: nat, r: real)
    requires x * n as real == r
    ensures Times(x, n) == r
  {
    TimesIsProduct(x, n);
  }

  /** Evaluating a percentage from its product, for worked examples. */
  lemma OfPercentValue(x: real, p: nat, r: real)
    requires x >= 0.0 && p <= 100
    requires x * p as real == 100.0 * r
    ensures OfPercent(x, p) == r
  {
    TimesIsProduct(x, p);
  }

  lemma {:induction false} TimesMonotoneAmount(x: real, y: real, n: nat)
    requires x <= y
    ensures Times(x, n) <= Times(y, n)
  {
    if n > 0 {
      TimesMonotoneAmount(x, y, n - 1);
    }
  }

  lemma {:induction false} TimesMonotoneCount(x: real, m: nat, n: nat)
    requires x >= 0.0 && m <= n
    ensures Times(x, m) <= Times(x, n)
  {
    if m < n {
      TimesMonotoneCount(x, m, n - 1);
    }
  }

  /** Accumulating a sum is the sum of the accumulations. */
  lemma {:induction false} TimesAdd(x: real, y: real, n: nat)
    ensures Times(x + y, n) == Times(x, n) + Times(y, n)
  {
    if n > 0 {
      TimesAdd(x, y, n - 1);
    }
  }

  /** Accumulating a difference is the difference of the accumulations. */
  lemma {:induction false} TimesSub(x: real, y: real, n: nat)
    ensures Times(x - y, n) == Times(x, n) - Times(y, n)
  {
    if n > 0 {
      TimesSub(x, y, n - 1);
    }
  }

  /** Dividing by a constant and accumulating commute. */
  lemma {:induction false} TimesHundredth(x: real, n: nat)
    ensures Times(x / 100.0, n) == Times(x, n) / 100.0
  {
    if n > 0 {
      TimesHundredth(x, n - 1);
    }
  }

  /** The order of two accumulations does not matter. */
  lemma {:induction false} TimesCommute(x: real, m: nat, n: nat)
    ensures Times(Times(x, m), n) == Times(Times(x, n), m)
  {
    if n > 0 {
      TimesCommute(x, m, n - 1);
      TimesAdd(Times(x, n - 1), x, m);
    }
  }

  lemma OfPercentMonotone(x: real, p: nat, q: nat)
    requires x >= 0.0 && p <= q <= 100
    ensures OfPercent(x, p) <= OfPercent(x, q)
  {
    TimesMonotoneCount(x, p, q);
  }

  lemma OfPercentMonotoneAmount(x: real, y: real, p: nat)
    requires 0.0 <= x <= y && p <= 100
    ensures OfPercent(x, p) <= OfPercent(y, p)
  {
    TimesMonotoneAmount(x, y, p);
  }

  /** Taking a percentage and accumulating over months commute. */
  lemma OfPercentTimes(x: real, p: nat, n: nat)
    requires x >= 0.0 && p <= 100
    ensures OfPercent(Times(x, n), p) == Times(OfPercent(x, p), n)
  {
    TimesHundredth(Times(x, p), n);
    TimesCommute(x, p, n);
  }

  /** A quotient has the sign of its numerator and is at least -1 when the numerator is at least `-d`. */
  lemma RatioSign(n: real, d: real)
    requires d > 0.0
    ensures Ratio(n, d) >= 0.0 <==> n >= 0.0
    ensures Ratio(n, d) == 0.0 <==> n == 0.0
    ensures n >= -d ==> Ratio(n, d) >= -1.0
  {
    var q := Ratio(n, d);
    if q < 0.0 {
      MulStrict(q, 0.0, d);
    } else if q > 0.0 {
      MulStrict(0.0, q, d);
    }
    if q < -1.0 {
      MulStrict(q, -1.0, d);
    }
  }

  /** The quotient is the only number that `d` times gives `n`. */
  lemma RatioUnique(n: real, d: real, q: real)
    requires d > 0.0 && d * q == n
    ensures Ratio(n, d) == q
  {
    var r := Ratio(n, d);
    if r < q {
      MulStrict(r, q, d);
    } else if r > q {
      MulStrict(q, r, d);
    }
  }

  lemma RatioMonotone(n: real, n': real, d: real)
    requires n <= n' && d > 0.0
    ensures Ratio(n, d) <= Ratio(n', d)
  {
    var q, q' := Ratio(n, d), Ratio(n', d);
    if q' < q {
      MulStrict(q', q, d);
    }
  }

  /**
    For a positive `b`, `n = ceil(s / b)` is the least month count whose
    accumulated `b` reaches `s`.
  */
  lemma CeilQuotient(s: real, b: real, n: int)
    requires s >= 0.0 && b > 0.0
    requires s / b <= n as real < s / b + 1.0
    ensures n >= 0
    ensures Times(b, n) >= s
    ensures n > 0 ==> Times(b, n - 1) < s
    ensures n == 0 <==> s == 0.0
  {
    QuotientSign(s, b);
    QuotientReach(s, b, n as real);
    TimesIsProduct(b, n);
    if n > 0 {
      QuotientBelow(s, b, n as real);
      TimesIsProduct(b, n - 1);
    }
  }

  /** If `s` is reached after `m` months of `b` but not after `n - 1`, then `n <= m`. */
  lemma LeastCount(s: real, b: real, n: nat, m: nat)
    requires b > 0.0
    requires n > 0 ==> Times(b, n - 1) < s
    requires Times(b, m) >= s
    ensures n <= m
  {
    if m < n {
      TimesMonotoneCount(b, m, n - 1);
    }
  }

  // Ordered-field facts on plain numbers.

  lemma QuotientSign(s: real, b: real)
    requires b > 0.0
    ensures s >= 0.0 ==> s / b >= 0.0
    ensures s > 0.0 ==> s / b > 0.0
    ensures s == 0.0 ==> s / b == 0.0
  {
    var q := s / b;
    assert b * q == s;
    if q < 0.0 {
      MulStrict(q, 0.0, b);
    }
    if q <= 0.0 {
      MulMono(q, 0.0, b);
    }
  }

  /** `k` not below `s / b` means `k` times `b` reaches `s`. */
  lemma QuotientReach(s: real, b: real, k: real)
    requires b > 0.0 && s / b <= k
    ensures b * k >= s
  {
    var q := s / b;
    assert b * q == s;
    MulMono(q, k, b);
  }

  /** `k` less than `s / b + 1` means `k - 1` times `b` stays below `s`. */
  lemma QuotientBelow(s: real, b: real, k: real)
    requires b > 0.0 && k < s / b + 1.0
    ensures b * (k - 1.0) < s
  {
    var q := s / b;
    assert b * q == s;
    MulStrict(k - 1.0, q, b);
  }

  lemma MulMono(a: real, b: real, c: real)
    requires a <= b && c >= 0.0
    ensures c * a <= c * b
  {
    assert c * b - c * a == c * (b - a);
  }

  lemma MulStrict(a: real, b: real, c: real)
    requires a < b && c > 0.0
    ensures c * a < c * b
  {
    assert c * b - c * a == c * (b - a);
  }
}
