/**
 * The equal-payment (annuity) formula used by the simulation page.
 *
 * Amounts and rates are exact reals; the power `(1 + rate)^(-m)` of the
 * source is written `1 / Pow(1 + rate, m)` with a natural-number power.
 */
module Finance {

  /** Below this magnitude a rate is treated as zero and the loan is split evenly. */
  const StraightLineEps: real := 1e-12

  function Abs(x: real): (a: real)
    ensures a >= 0.0 && (a == x || a == -x)
  {
    if x < 0.0 then -x else x
  }

  /** `x` raised to the natural power `m`. */
  function Pow(x: real, m: nat): real
  {
    if m == 0 then 1.0 else x * Pow(x, m - 1)
  }

  lemma {:induction false} PowPositive(x: real, m: nat)
    requires x > 0.0
    ensures Pow(x, m) > 0.0
  {
    if m > 0 {
      PowPositive(x, m - 1);
    }
  }

  /** A base above one keeps every positive power above one, and at least the base itself. */
  lemma {:induction false} PowAboveOne(x: real, m: nat)
    requires x > 1.0 && m >= 1
    ensures Pow(x, m) >= x > 1.0
  {
    if m > 1 {
      PowAboveOne(x, m - 1);
      assert x * Pow(x, m - 1) >= x * x by {
        assert Pow(x, m - 1) >= x;
      }
    }
  }

  /** A base strictly between zero and one keeps every positive power below one. */
  lemma {:induction false} PowBelowOne(x: real, m: nat)
    requires 0.0 < x < 1.0 && m >= 1
    ensures 0.0 < Pow(x, m) < 1.0
  {
    if m > 1 {
      PowBelowOne(x, m - 1);
      assert x * Pow(x, m - 1) < 1.0 * Pow(x, m - 1);
    }
  }

  /** Whether `rate` takes the annuity branch of `Pmt` rather than the straight-line one. */
  predicate UsesAnnuity(rate: real)
  {
    Abs(rate) >= StraightLineEps
  }

  /**
   * `pmt(pv, rate, m)`: the constant payment that repays `pv` over `m`
   * periods at `rate` per period; zero for an empty horizon and `pv / m`
   * for a rate indistinguishable from zero.
   */
  function Pmt(pv: real, rate: real, m: int): (p: real)
    requires rate > -1.0
    ensures m <= 0 ==> p == 0.0
    ensures pv >= 0.0 ==> p >= 0.0
    ensures pv > 0.0 && m >= 1 ==> p > 0.0
  {
    if m <= 0 then 0.0
    else if !UsesAnnuity(rate) then pv / (m as real)
    else
      var q := Pow(1.0 + rate, m);
      AnnuityDenominatorSign(rate, m);
      var d := 1.0 - 1.0 / q;
      if pv > 0.0 then
        QuotientPositive(rate * pv, d);
        rate * pv / d
      else
        rate * pv / d
  }

  /** The annuity denominator `1 - (1 + rate)^(-m)` is non-zero and has the sign of the rate. */
  lemma {:induction false} AnnuityDenominatorSign(rate: real, m: nat)
    requires rate > -1.0 && rate != 0.0 && m >= 1
    ensures Pow(1.0 + rate, m) > 0.0
    ensures rate > 0.0 ==> 1.0 - 1.0 / Pow(1.0 + rate, m) > 0.0
    ensures rate < 0.0 ==> 1.0 - 1.0 / Pow(1.0 + rate, m) < 0.0
  {
    var q := Pow(1.0 + rate, m);
    if rate > 0.0 {
      PowAboveOne(1.0 + rate, m);
      assert 1.0 / q < 1.0;
    } else {
      PowBelowOne(1.0 + rate, m);
      assert 1.0 / q > 1.0;
    }
  }

  /**
   * Over a single period the payment closes the balance with its interest,
   * unless the rate falls in the straight-line band around zero, where only
   * the balance itself is paid.
   */
  lemma {:induction false} PmtOnePeriod(b: real, rate: real)
    requires rate > -1.0
    ensures UsesAnnuity(rate) ==> Pmt(b, rate, 1) == b * (1.0 + rate)
    ensures !UsesAnnuity(rate) ==> Pmt(b, rate, 1) == b
  {
    if UsesAnnuity(rate) {
      assert Pow(1.0 + rate, 1) == (1.0 + rate) * Pow(1.0 + rate, 0) == 1.0 + rate;
      PmtAnnuityProduct(b, rate, 1, 1.0 + rate);
      OnePeriodAlgebra(Pmt(b, rate, 1), rate, b);
    }
  }

  /** Over one period (`q = 1 + rate`) the annuity identity pins the payment to `b (1 + rate)`. */
  lemma {:induction false} OnePeriodAlgebra(p: real, rate: real, b: real)
    requires rate != 0.0 && AnnuityIdentity(p, rate, b, 1.0 + rate)
    ensures p == b * (1.0 + rate)
  {
    CancelFactor(p, b * (1.0 + rate), rate, rate * b * (1.0 + rate));
  }

  /** For a non-zero `d`, `c / d` is positive when `c` and `d` share their sign. */
  lemma {:induction false} QuotientPositive(c: real, d: real)
    requires (c > 0.0 && d > 0.0) || (c < 0.0 && d < 0.0)
    ensures c / d > 0.0
  {
    if d < 0.0 {
      assert c / d == (-c) / (-d);
    }
  }

  /** A non-zero factor cancels. */
  lemma {:induction false} CancelFactor(a: real, c: real, u: real, w: real)
    requires u != 0.0 && a * u == w && c * u == w
    ensures a == c
  {
    assert (a - c) * u == 0.0;
  }

  /** A quotient by `1 - 1/q`, cleared of its denominators. */
  lemma {:induction false} ReciprocalForm(p: real, rate: real, b: real, q: real)
    requires q != 0.0 && 1.0 - 1.0 / q != 0.0
    requires p == rate * b / (1.0 - 1.0 / q)
    ensures AnnuityIdentity(p, rate, b, q)
  {
    var d := 1.0 - 1.0 / q;
    assert d * q == q - 1.0;
    assert p * d == rate * b;
    assert p * (q - 1.0) == (p * d) * q;
  }

  /**
   * The annuity formula cleared of its denominators: `p` repays `b` at
   * `rate` over the periods whose growth factor is `q`.
   */
  predicate AnnuityIdentity(p: real, rate: real, b: real, q: real)
  {
    p * (q - 1.0) == rate * b * q
  }

  /** The annuity payment over `m` periods satisfies the annuity identity for `q = (1 + rate)^m`. */
  lemma {:induction false} PmtAnnuityProduct(b: real, rate: real, m: int, q: real)
    requires rate > -1.0 && m >= 1 && UsesAnnuity(rate)
    requires q == Pow(1.0 + rate, m)
    ensures q > 0.0 && q != 1.0
    ensures AnnuityIdentity(Pmt(b, rate, m), rate, b, q)
  {
    AnnuityDenominatorSign(rate, m);
    ReciprocalForm(Pmt(b, rate, m), rate, b, Pow(1.0 + rate, m));
  }

  /**
   * Re-amortization is stable: paying the equal payment for one period and
   * recomputing it for the remaining `m - 1` periods yields the same payment,
   * and that period leaves a non-negative balance. This holds exactly for a
   * zero rate and for every rate on the annuity branch; it fails inside the
   * straight-line band (see `StraightLineDrift`).
   */
  lemma {:induction false} PmtReamortizes(b: real, rate: real, m: int)
    requires rate > -1.0 && m >= 2 && b >= 0.0
    requires rate == 0.0 || UsesAnnuity(rate)
    ensures b * (1.0 + rate) - Pmt(b, rate, m) >= 0.0
    ensures Pmt(b * (1.0 + rate) - Pmt(b, rate, m), rate, m - 1) == Pmt(b, rate, m)
  {
    if rate == 0.0 {
      ZeroRateStep(b, m);
    } else {
      var q', q := Pow(1.0 + rate, m - 1), Pow(1.0 + rate, m);
      assert q == (1.0 + rate) * q';
      AnnuityStep(b, rate, m, q', q, b * (1.0 + rate) - Pmt(b, rate, m));
    }
  }

  /** The balance left after paying `p` in each of `m` periods, starting from `b`. */
  function LevelBalance(b: real, rate: real, p: real, m: nat): real
    decreases m
  {
    if m == 0 then b else LevelBalance(b * (1.0 + rate) - p, rate, p, m - 1)
  }

  /**
   * The equal payment does what it is for: paid in each of the `m` periods,
   * it leaves nothing of the balance, for a zero rate and for every rate on
   * the annuity branch.
   */
  lemma {:induction false} PmtRepays(b: real, rate: real, m: int)
    requires rate > -1.0 && m >= 1 && b >= 0.0
    requires rate == 0.0 || UsesAnnuity(rate)
    ensures LevelBalance(b, rate, Pmt(b, rate, m), m) == 0.0
    decreases m
  {
    var p := Pmt(b, rate, m);
    var b' := b * (1.0 + rate) - p;
    assert LevelBalance(b, rate, p, m) == LevelBalance(b', rate, p, m - 1);
    if m == 1 {
      PmtOnePeriod(b, rate);
    } else {
      PmtReamortizes(b, rate, m);
      PmtRepays(b', rate, m - 1);
    }
  }

  /** The zero-rate case of `PmtReamortizes`. */
  lemma {:induction false} ZeroRateStep(b: real, m: int)
    requires m >= 2 && b >= 0.0
    ensures b * (1.0 + 0.0) - Pmt(b, 0.0, m) >= 0.0
    ensures Pmt(b * (1.0 + 0.0) - Pmt(b, 0.0, m), 0.0, m - 1) == Pmt(b, 0.0, m)
  {
    var p := b / (m as real);
    assert Pmt(b, 0.0, m) == p;
    var b' := b * (1.0 + 0.0) - p;
    assert b' == b - p;
    assert Pmt(b', 0.0, m - 1) == b' / ((m - 1) as real);
    StraightLineStep(b, 0.0, m);
  }

  /**
   * The annuity case of `PmtReamortizes`, over the growth factors
   * `q' = (1 + rate)^(m-1)` and `q = (1 + rate)^m` and the balance `b'` left
   * after one period.
   */
  lemma {:induction false} AnnuityStep(b: real, rate: real, m: int, q': real, q: real, b': real)
    requires rate > -1.0 && m >= 2 && b >= 0.0 && UsesAnnuity(rate)
    requires q' == Pow(1.0 + rate, m - 1) && q == Pow(1.0 + rate, m) && q == (1.0 + rate) * q'
    requires b' == b * (1.0 + rate) - Pmt(b, rate, m)
    ensures b' >= 0.0 && Pmt(b', rate, m - 1) == Pmt(b, rate, m)
  {
    PmtAnnuityProduct(b, rate, m, q);
    PmtAnnuityProduct(b', rate, m - 1, q');
    GrowthOnSameSide(rate, m, q', q);
    AnnuityStepAlgebra(rate, b, q', q, Pmt(b, rate, m), b', Pmt(b', rate, m - 1));
  }

  /** The algebra of `AnnuityStep`, over plain numbers. */
  lemma {:induction false} AnnuityStepAlgebra(rate: real, b: real, q': real, q: real, p: real, b': real, p': real)
    requires b >= 0.0 && rate > -1.0 && q == (1.0 + rate) * q' && q' != 1.0
    requires SameSideOfOne(q, q')
    requires AnnuityIdentity(p, rate, b, q) && b' == b * (1.0 + rate) - p
    requires AnnuityIdentity(p', rate, b', q')
    ensures p' == p && b' >= 0.0
  {
    var x := 1.0 + rate;
    StepIdentities(rate, b, x, q', q, p, b');
    CancelFactor(p', p, q' - 1.0, rate * b' * q');
    assert b * x >= 0.0;
    NonNegativeFactor(b', q - 1.0, b * x, q' - 1.0);
  }

  /**
   * The polynomial identities of one annuity period: with `p (q - 1) = rate b q`,
   * the remainder `b' = b x - p` satisfies `rate b' q' = p (q' - 1)` and
   * `b' (q - 1) = b x (q' - 1)`.
   */
  lemma {:induction false} StepIdentities(rate: real, b: real, x: real, q': real, q: real, p: real, b': real)
    requires x == 1.0 + rate && q == x * q'
    requires p * (q - 1.0) == rate * b * q && b' == b * x - p
    ensures rate * b' * q' == p * (q' - 1.0)
    ensures b' * (q - 1.0) == b * x * (q' - 1.0)
  {
    assert rate * b' * q' == rate * b * q - rate * p * q';
    assert rate * b * q == p * q - p;
    assert p * q == p * q' + rate * p * q';
    assert b' * (q - 1.0) == b * x * q - b * x - rate * b * q;
    assert b * x * q - rate * b * q == b * q;
  }

  /** Both growth factors exceed one, or both fall short of it. */
  predicate SameSideOfOne(q: real, q': real)
  {
    (q - 1.0 > 0.0 && q' - 1.0 > 0.0) || (q - 1.0 < 0.0 && q' - 1.0 < 0.0)
  }

  /** `(1 + rate)^(m-1)` and `(1 + rate)^m` lie on the same side of one. */
  lemma {:induction false} GrowthOnSameSide(rate: real, m: int, q': real, q: real)
    requires rate > -1.0 && m >= 2 && rate != 0.0
    requires q' == Pow(1.0 + rate, m - 1) && q == Pow(1.0 + rate, m)
    ensures SameSideOfOne(q, q')
  {
    if rate > 0.0 {
      PowAboveOne(1.0 + rate, m - 1);
      PowAboveOne(1.0 + rate, m);
    } else {
      PowBelowOne(1.0 + rate, m - 1);
      PowBelowOne(1.0 + rate, m);
    }
  }

  /** If `y e = a f` with `a >= 0` and `e`, `f` of one sign, then `y >= 0`. */
  lemma {:induction false} NonNegativeFactor(y: real, e: real, a: real, f: real)
    requires y * e == a * f && a >= 0.0
    requires (e > 0.0 && f > 0.0) || (e < 0.0 && f < 0.0)
    ensures y >= 0.0
  {
    if e > 0.0 {
      assert a * f >= 0.0;
    } else {
      assert a * f <= 0.0;
    }
  }

  /** One straight-line period: the payment recomputed on what is left, for any rate. */
  lemma {:induction false} StraightLineStep(b: real, rate: real, m: int)
    requires m >= 2
    ensures (b * (1.0 + rate) - b / (m as real)) / ((m - 1) as real)
         == b / (m as real) + rate * b / ((m - 1) as real)
    ensures rate == 0.0 && b >= 0.0 ==> b * (1.0 + rate) - b / (m as real) >= 0.0
  {
    var mr := m as real;
    var k := mr - 1.0;
    assert b - b / mr == b * k / mr;
    assert (b * (1.0 + rate) - b / mr) / k == (b - b / mr) / k + rate * b / k;
    assert b * k / mr / k == b / mr;
    if rate == 0.0 && b >= 0.0 {
      assert b * k / mr >= 0.0;
    }
  }

  /**
   * Inside the straight-line band (a non-zero rate below 1e-12 in magnitude)
   * re-amortization drifts: after one period the recomputed payment exceeds
   * (or, for a negative rate, falls short of) the original one by the
   * interest spread over the remaining periods.
   */
  lemma {:induction false} StraightLineDrift(b: real, rate: real, m: int)
    requires rate > -1.0 && m >= 2
    requires !UsesAnnuity(rate)
    ensures Pmt(b * (1.0 + rate) - Pmt(b, rate, m), rate, m - 1)
         == Pmt(b, rate, m) + rate * b / ((m - 1) as real)
  {
    StraightLineStep(b, rate, m);
  }
}
