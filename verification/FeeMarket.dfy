/** The base fee follows gas use. The change is a product divided twice in 64-bit
    words; it equals the exact quotient, saturated. */
module FeeMarket {
  import opened Arithmetic

  const WORD: nat := 0x1_0000_0000_0000_0000
  const MAX_UINT64: nat := WORD - 1

  type uint64 = x: nat | x < WORD

  const INITIAL_BASE_FEE: uint64 := 1
  const DEFAULT_BLOCK_GAS_LIMIT: uint64 := 30_000_000
  const DENOMINATOR: uint64 := 8

  // ---- 64-bit word operations ----

  function Mul64(a: uint64, b: uint64): (r: (uint64, uint64))
    ensures r.0 * WORD + r.1 == a * b
  {
    MulBounds(a, b, WORD - 1);
    FitsExactly(WORD, WORD, a * b);
    assert a * b < WORD * WORD by { MulBounds(WORD - 1, a, WORD - 1); }
    ((a * b) / WORD, (a * b) % WORD)
  }

  /** The processor instruction: it traps unless the quotient fits a word. */
  function Div64(hi: uint64, lo: uint64, y: uint64): (q: uint64)
    requires hi < y
    ensures q == (hi * WORD + lo) / y
  {
    QuotientFits(hi, lo, y);
    (hi * WORD + lo) / y
  }

  lemma QuotientFits(hi: uint64, lo: uint64, y: uint64)
    requires hi < y
    ensures 0 <= (hi * WORD + lo) / y < WORD
  {
    var x := hi * WORD + lo;
    assert (hi + 1) * WORD == hi * WORD + WORD;
    MulBounds(WORD, hi + 1, y);
    FitsExactly(WORD - 1, y, x);
    FitsExactly(WORD, y, x);
    DivNonNegative(x, y);
  }

  lemma DivNonNegative(x: int, y: int)
    requires x >= 0 && y > 0
    ensures x / y >= 0
  {
  }

  /** Schoolbook division of two words by one. */
  lemma LongDivision(hi: uint64, lo: uint64, y: uint64)
    requires y > 0
    ensures hi % y < y && hi / y < WORD
    ensures (hi * WORD + lo) / y == (hi / y) * WORD + Div64(hi % y, lo, y)
  {
    var q, r := hi / y, hi % y;
    assert 0 <= q < WORD by { QuotientSmall(hi, y); }
    var low := r * WORD + lo;
    var q2, r2 := low / y, low % y;
    assert hi * WORD + lo == (q * WORD + q2) * y + r2 by { Regroup(hi, q, r, y, lo, q2, r2); }
    DivModOf(hi * WORD + lo, q * WORD + q2, y, r2);
  }

  lemma QuotientSmall(x: nat, y: nat)
    requires y > 0
    ensures 0 <= x / y <= x
  {
    DivNonNegative(x, y);
    if x / y > 0 {
      MulAtLeast(y, x / y);
      assert x == y * (x / y) + x % y;
    }
  }

  lemma Regroup(hi: nat, q: int, r: int, y: int, lo: nat, q2: int, r2: int)
    requires hi == q * y + r && r * WORD + lo == q2 * y + r2
    ensures hi * WORD + lo == (q * WORD + q2) * y + r2
  {
    assert q * y * WORD == q * WORD * y;
    assert (q * WORD + q2) * y == q * WORD * y + q2 * y;
  }

  lemma DivideTwice(x: nat, a: nat, b: nat)
    requires a > 0 && b > 0
    ensures a * b > 0 && (x / a) / b == x / (a * b)
  {
    var q, r := x / a, x % a;
    var q2, r2 := q / b, q % b;
    assert x == q * a + r && q == q2 * b + r2;
    assert x == q2 * (a * b) + (r2 * a + r) by {
      assert (q2 * b + r2) * a == q2 * (a * b) + r2 * a;
    }
    MulAtLeast(b, a);
    assert a * b == b * a;
    assert 0 <= r2 * a + r < a * b by {
      MulBounds(a, r2, b - 1);
      assert a * (b - 1) == a * b - a && a * r2 == r2 * a;
    }
    DivModOf(x, q2, a * b, r2 * a + r);
  }

  // ---- The change of the base fee ----

  function Min(a: nat, b: nat): nat { if a < b then a else b }

  /** The exact floor of the quotient, saturated; no division traps. */
  function BaseFeeChange(baseFee: uint64, gasDelta: uint64, gasTarget: uint64, denominator: uint64): (r: uint64)
    ensures gasTarget == 0 || denominator == 0 ==> r == 0
    ensures gasTarget > 0 && denominator > 0 ==>
              gasTarget * denominator > 0 && r == Min(baseFee * gasDelta / (gasTarget * denominator), MAX_UINT64)
  {
    if gasTarget == 0 || denominator == 0 then 0
    else if baseFee == 0 || gasDelta == 0 then ZeroQuotient(baseFee, gasDelta, gasTarget, denominator); 0
    else
      var product := Mul64(baseFee, gasDelta);
      TwoLongDivisions(product.0, product.1, gasTarget, denominator);
      var quotientHigh := product.0 / gasTarget;
      var quotientLow := Div64(product.0 % gasTarget, product.1, gasTarget);
      var resultHigh := quotientHigh / denominator;
      var resultLow := Div64(quotientHigh % denominator, quotientLow, denominator);
      if resultHigh != 0 then MAX_UINT64 else resultLow
  }

  lemma ZeroQuotient(a: nat, b: nat, t: nat, d: nat)
    requires (a == 0 || b == 0) && t > 0 && d > 0
    ensures t * d > 0 && a * b / (t * d) == 0
  {
    assert a * b == 0;
    MulAtLeast(t, d);
    DivModOf(0, 0, t * d, 0);
  }

  lemma TwoLongDivisions(hi: uint64, lo: uint64, t: uint64, d: uint64)
    requires t > 0 && d > 0
    ensures hi % t < t && hi / t < WORD && (hi / t) % d < d && t * d > 0
    ensures var low := Div64(hi % t, lo, t);
            (hi * WORD + lo) / (t * d) == ((hi / t) / d) * WORD + Div64((hi / t) % d, low, d)
    ensures 0 <= (hi / t) / d
  {
    hide Div64;
    var x, q := hi * WORD + lo, hi / t;
    assert hi % t < t && 0 <= q < WORD by {
      LongDivision(hi, lo, t);
      DivNonNegative(hi, t);
    }
    var low := Div64(hi % t, lo, t);
    assert x / t == q * WORD + low by { LongDivision(hi, lo, t); }
    assert q % d < d by { LongDivision(q, low, d); }
    assert (q * WORD + low) / d == (q / d) * WORD + Div64(q % d, low, d) by { LongDivision(q, low, d); }
    assert 0 <= q / d by { DivNonNegative(q, d); }
    DivideTwice(x, t, d);
  }

  // ---- The next base fee ----

  function Target(gasLimit: uint64): (t: uint64)
    ensures t > 0
  {
    var limit := if gasLimit == 0 then DEFAULT_BLOCK_GAS_LIMIT else gasLimit;
    if limit / 2 == 0 then 1 else limit / 2
  }

  function Parent(parent: uint64): uint64 {
    if parent == 0 then INITIAL_BASE_FEE else parent
  }

  function NextBaseFee(parent: uint64, gasUsed: uint64, gasLimit: uint64): uint64 {
    var parentBaseFee := Parent(parent);
    var target := Target(gasLimit);
    if gasUsed == target then parentBaseFee
    else if gasUsed > target then
      var change := BaseFeeChange(parentBaseFee, gasUsed - target, target, DENOMINATOR);
      var increase := if change == 0 then 1 else change;
      if MAX_UINT64 - parentBaseFee < increase then MAX_UINT64 else parentBaseFee + increase
    else
      var decrease := BaseFeeChange(parentBaseFee, target - gasUsed, target, DENOMINATOR);
      if decrease >= parentBaseFee then INITIAL_BASE_FEE
      else
        var next := parentBaseFee - decrease;
        if next < INITIAL_BASE_FEE then INITIAL_BASE_FEE else next
  }

  lemma TargetIsHalf(gasLimit: uint64)
    ensures var limit, t := if gasLimit == 0 then 30_000_000 else gasLimit, Target(gasLimit);
            if limit == 1 then t == 1 else limit - 1 <= 2 * t <= limit
  {
  }

  /** More gas than the target raises the fee by at least one; less gas lowers it
      by at most an eighth, so neither floor of the code is ever reached. */
  lemma NextBaseFeeIs(parent: uint64, gasUsed: uint64, gasLimit: uint64)
    ensures var p, t, r := Parent(parent), Target(gasLimit), NextBaseFee(parent, gasUsed, gasLimit);
            var limit := if gasLimit == 0 then 30_000_000 else gasLimit;
            && p == (if parent == 0 then 1 else parent)
            && t > 0 && (if limit == 1 then t == 1 else limit - 1 <= 2 * t <= limit)
            && t * DENOMINATOR > 0 && DENOMINATOR == 8
            && r >= 1
            && (gasUsed == t ==> r == p)
            && (gasUsed > t ==>
                 var up := p * (gasUsed - t) / (t * DENOMINATOR);
                 up >= 0 && r == Min(p + if up == 0 then 1 else up, MAX_UINT64))
            && (gasUsed < t ==>
                 var down := p * (t - gasUsed) / (t * DENOMINATOR);
                 0 <= down <= p / DENOMINATOR && r == p - down
                   && BaseFeeChange(p, t - gasUsed, t, DENOMINATOR) == down < p)
  {
    TargetIsHalf(gasLimit);
    hide BaseFeeChange, Target;
    var p, t := Parent(parent), Target(gasLimit);
    if gasUsed > t {
      Increase(p, gasUsed - t, t);
    } else if gasUsed < t {
      AtMostAnEighth(p, t - gasUsed, t, DENOMINATOR);
    } else {
      MulAtLeast(t, DENOMINATOR);
    }
  }

  lemma Increase(p: nat, delta: nat, t: nat)
    requires t > 0
    ensures t * DENOMINATOR > 0 && p * delta / (t * DENOMINATOR) >= 0
  {
    MulAtLeast(t, DENOMINATOR);
    MulBounds(p, delta, delta);
    DivNonNegative(p * delta, t * DENOMINATOR);
  }

  lemma AtMostAnEighth(p: nat, delta: nat, t: nat, d: nat)
    requires delta <= t && t > 0 && d > 0
    ensures t * d > 0 && 0 <= p * delta / (t * d) <= p / d
  {
    MulAtLeast(t, d);
    MulBounds(p, delta, t);
    DivideTwice(p * t, t, d);
    DivModOf(p * t, p, t, 0);
    DivMonotone(p * delta, p * t, t * d);
    DivNonNegative(p * delta, t * d);
  }

  lemma DivMonotone(x: int, y: int, n: int)
    requires x <= y && n > 0
    ensures x / n <= y / n
  {
    var a, b := x / n, y / n;
    assert x == a * n + x % n && y == b * n + y % n;
    if a > b {
      assert (a - b) * n == a * n - b * n;
      MulAtLeast(a - b, n);
    }
  }

  /** Using more gas never leads to a lower fee. */
  lemma FeeGrowsWithUse(parent: uint64, gasUsed: uint64, gasUsed': uint64, gasLimit: uint64)
    requires gasUsed <= gasUsed'
    ensures NextBaseFee(parent, gasUsed, gasLimit) <= NextBaseFee(parent, gasUsed', gasLimit)
  {
    hide NextBaseFee, Target, Parent;
    var p, t := Parent(parent), Target(gasLimit);
    NextBaseFeeIs(parent, gasUsed, gasLimit);
    NextBaseFeeIs(parent, gasUsed', gasLimit);
    if t < gasUsed {
      MulBounds(p, gasUsed - t, gasUsed' - t);
      DivMonotone(p * (gasUsed - t), p * (gasUsed' - t), t * DENOMINATOR);
    } else if gasUsed' < t {
      MulBounds(p, t - gasUsed', t - gasUsed);
      DivMonotone(p * (t - gasUsed'), p * (t - gasUsed), t * DENOMINATOR);
    }
  }
}
