/** Decimal amounts (`parse_amount` and `format_one` in airdrop/tools/common.py). Python's decimal arithmetic rounds every
    product to 28 significant digits, half to even. */
module Amounts {
  import opened Lists

  function Pow10(n: nat): (r: nat)
    ensures r >= 1
  {
    if n == 0 then 1 else 10 * Pow10(n - 1)
  }

  lemma {:induction false} Pow10Sum(m: nat, n: nat)
    ensures Pow10(m + n) == Pow10(m) * Pow10(n)
  {
    if m > 0 {
      Pow10Sum(m - 1, n);
    }
  }

  /** The number without its trailing zeros: its significant digits. */
  function Significant(c: nat): nat
  {
    if c == 0 then 0 else if c % 10 == 0 then Significant(c / 10) else c
  }

  lemma SignificantTen(d: nat)
    ensures Significant(10 * d) == Significant(d)
  {
  }

  lemma TimesTen(c: nat, m: nat)
    ensures c * (10 * m) == 10 * (c * m)
  {
  }

  lemma {:induction false} SignificantScaled(c: nat, k: nat)
    ensures Significant(c * Pow10(k)) == Significant(c)
  {
    hide Significant;
    if k > 0 {
      SignificantScaled(c, k - 1);
      TimesTen(c, Pow10(k - 1));
      SignificantTen(c * Pow10(k - 1));
    }
  }

  lemma {:induction false} SignificantParts(c: nat) returns (j: nat)
    ensures c == Significant(c) * Pow10(j)
  {
    j := 0;
    if c > 0 && c % 10 == 0 {
      var i := SignificantParts(c / 10);
      TimesTen(Significant(c / 10), Pow10(i));
      j := i + 1;
    }
  }

  lemma {:induction false} SignificantAtMost(c: nat)
    ensures Significant(c) <= c
  {
    if c > 0 && c % 10 == 0 {
      SignificantAtMost(c / 10);
    }
  }

  // ----- rounding to the context's precision

  /** How many digits must go so that fewer than `limit` remains. */
  function Excess(c: nat, limit: nat): (k: nat)
    requires limit >= 1
    ensures Quotient(c, Pow10(k)) < limit
    ensures k > 0 ==> Quotient(c, Pow10(k - 1)) >= limit
  {
    if c < limit then 0
    else
      var k := Excess(c / 10, limit);
      TenthFirst(c, k);
      if k > 0 then TenthFirst(c, k - 1); k + 1 else k + 1
  }

  lemma {:induction false} TenthFirst(c: nat, k: nat)
    ensures c / 10 / Pow10(k) == c / Pow10(k + 1)
  {
    var m := Pow10(k);
    var q := c / 10;
    var r := q / m;
    assert c == 10 * q + c % 10 && q == m * r + q % m;
    assert Pow10(k + 1) == 10 * m;
    assert c == (10 * m) * r + (10 * (q % m) + c % 10);
    QuotientIs(c, 10 * m, r, 10 * (q % m) + c % 10);
  }

  /** A coefficient and the power of ten it has been divided by. */
  datatype Rounded = Rounded(coef: nat, dropped: nat)

  /** To `p` digits, half to even; a carry into a new digit drops one more. */
  function Round(c: nat, p: nat): (r: Rounded)
    requires p >= 1
    ensures r.coef < Pow10(p)
  {
    var k := Excess(c, Pow10(p));
    Rounding(Quotient(c, Pow10(k)), Rest(c, Pow10(k)), k, Pow10(p))
  }

  function Quotient(c: nat, m: nat): nat
    requires m > 0
  {
    c / m
  }

  function Rest(c: nat, m: nat): nat
    requires m > 0
  {
    c % m
  }

  function Rounding(q: nat, rest: nat, k: nat, limit: nat): (r: Rounded)
    requires q < limit
    ensures r.coef < limit
  {
    if !RoundsUp(q, rest, Pow10(k)) then Rounded(q, k)
    else if q + 1 < limit then Rounded(q + 1, k)
    else Rounded((q + 1) / 10, k + 1)
  }

  /** More than half a unit over, or exactly half over an odd digit. */
  predicate RoundsUp(q: nat, rest: nat, unit: nat)
  {
    2 * rest > unit || (2 * rest == unit && q % 2 == 1)
  }

  /** `v` is a multiple of `unit` nearest to `c`, and of two equally near ones the even one. */
  ghost predicate Nearest(c: nat, v: nat, unit: nat)
  {
    && 2 * v <= 2 * c + unit && 2 * c <= 2 * v + unit
    && exists m: nat :: v == m * unit && (2 * v == 2 * c + unit || 2 * c == 2 * v + unit ==> m % 2 == 0)
  }

  lemma NearestOf(c: nat, q: nat, rest: nat, unit: nat)
    requires rest < unit && c == q * unit + rest
    ensures var m := if RoundsUp(q, rest, unit) then q + 1 else q; Nearest(c, m * unit, unit)
  {
    var m := if RoundsUp(q, rest, unit) then q + 1 else q;
    assert (q + 1) * unit == q * unit + unit;
    var v := m * unit;
    assert v == if RoundsUp(q, rest, unit) then q * unit + unit else q * unit;
  }

  /** Rounding gives the nearest number with the digits kept, half to even. */
  lemma RoundIsNearest(c: nat, p: nat)
    requires p >= 1
    ensures Nearest(c, Round(c, p).coef * Pow10(Round(c, p).dropped), Pow10(Excess(c, Pow10(p))))
  {
    hide Pow10, Rounding, Nearest;
    var k := Excess(c, Pow10(p));
    var unit := Pow10(k);
    DivideAndRest(c, unit);
    RoundingIs(Quotient(c, unit), Rest(c, unit), k, p);
    hide Excess;
    NearestOf(c, Quotient(c, unit), Rest(c, unit), unit);
  }

  lemma RoundingIs(q: nat, rest: nat, k: nat, p: nat)
    requires p >= 1 && q < Pow10(p)
    ensures var r := Rounding(q, rest, k, Pow10(p));
            r.coef * Pow10(r.dropped) == (if RoundsUp(q, rest, Pow10(k)) then q + 1 else q) * Pow10(k)
  {
    if q + 1 == Pow10(p) {
      var d := Pow10(p - 1);
      assert q + 1 == 10 * d && (q + 1) / 10 == d && Pow10(k + 1) == 10 * Pow10(k);
      TimesTen(d, Pow10(k));
      Reassociate(10, d, Pow10(k));
    }
  }

  /** Nothing is lost by rounding exactly when the number has at most `p` significant digits. */
  lemma RoundExactIff(c: nat, p: nat)
    requires p >= 1
    ensures Round(c, p).coef * Pow10(Round(c, p).dropped) == c <==> Significant(c) < Pow10(p)
  {
    var r := Round(c, p);
    if r.coef * Pow10(r.dropped) == c {
      SignificantScaled(r.coef, r.dropped);
      SignificantAtMost(r.coef);
    }
    if Significant(c) < Pow10(p) {
      var j := SignificantParts(c);
      var k := Excess(c, Pow10(p));
      FewDropped(Significant(c), j, k, p);
      DividesEvenly(Significant(c), j, k);
      NothingDropped(c, p);
    }
  }

  lemma NothingDropped(c: nat, p: nat)
    requires p >= 1 && c % Pow10(Excess(c, Pow10(p))) == 0
    ensures Round(c, p).coef * Pow10(Round(c, p).dropped) == c
  {
    hide Excess, Pow10;
    var k := Excess(c, Pow10(p));
    assert Round(c, p) == Rounded(c / Pow10(k), k);
    hide Round;
    DivideAndRest(c, Pow10(k));
  }

  lemma DivideAndRest(c: nat, d: nat)
    requires d > 0
    ensures c == c / d * d + c % d
  {
  }

  lemma Reassociate(m: nat, n: nat, q: nat)
    ensures m * n * q == m * (n * q)
  {
  }

  lemma NextMultiple(m: nat, s: nat)
    ensures m * (s + 1) == m * s + m
  {
  }

  lemma NoSmaller(n: nat, q: nat)
    requires n >= 1
    ensures n * q >= q
  {
  }

  /** No more digits go than there are trailing zeros. */
  lemma FewDropped(s: nat, j: nat, k: nat, p: nat)
    requires s < Pow10(p) && k == Excess(s * Pow10(j), Pow10(p))
    ensures k <= j
  {
    hide Excess;
    if k > j {
      var c := s * Pow10(j);
      Pow10Sum(j, k - 1 - j);
      SmallQuotient(s, Pow10(j), Pow10(k - 1 - j), c);
    }
  }

  lemma SmallQuotient(s: nat, m: nat, n: nat, c: nat)
    requires m > 0 && n > 0 && c == s * m
    ensures m * n > 0 && c / (m * n) <= s
  {
    NoSmaller(n, m);
    var q := c / (m * n);
    DivideAndRest(c, m * n);
    Reassociate(m, n, q);
    NextMultiple(m, s);
    Cancels(m, n * q, s + 1);
    NoSmaller(n, q);
  }

  lemma Multiple(m: nat, q: nat)
    requires m > 0
    ensures m * q % m == 0
  {
    QuotientIs(m * q, m, q, 0);
    assert m * q == m * (m * q / m) + m * q % m;
  }

  lemma Regroup(s: nat, m: nat, n: nat)
    ensures s * (m * n) == m * (s * n)
  {
    assert s * (m * n) == (s * m) * n == (m * s) * n == m * (s * n);
  }

  lemma DividesEvenly(s: nat, j: nat, k: nat)
    requires k <= j
    ensures s * Pow10(j) % Pow10(k) == 0
  {
    hide Pow10;
    Pow10Sum(k, j - k);
    var m, n := Pow10(k), Pow10(j - k);
    Regroup(s, m, n);
    Multiple(m, s * n);
  }

  // ----- parse_amount on decimals

  /** A decimal number as Python holds it: sign, coefficient, power of ten. */
  datatype Dec = Dec(negative: bool, coef: nat, exp: int)

  datatype Result = Ok(amount: nat) | TooManyDecimals | NotPositive | NotANumber

  /** `v` is the number c * 10^e. */
  ghost predicate IsValue(c: nat, e: int, v: nat)
  {
    if e >= 0 then v == c * Pow10(e) else v * Pow10(-e) == c
  }

  /** `int(x)`, when x == x.to_integral_value(). */
  function Whole(c: nat, e: int): (r: (bool, nat))
    ensures r.0 ==> IsValue(c, e, r.1)
    ensures !r.0 ==> forall v :: !IsValue(c, e, v)
  {
    if e >= 0 then (true, c * Pow10(e))
    else
      var d := Pow10(-e);
      DivideAndRest(c, d);
      if c % d == 0 then (true, c / d)
      else
        assert forall v: nat :: v * d != c by {
          forall v: nat ensures v * d != c {
            if v * d == c {
              Multiple(d, v);
            }
          }
        }
        (false, 0)
  }

  /** Multiply by 10^18, rounding to `p` digits; the product must be whole and positive. */
  function ParseDecimal(d: Dec, p: nat): Result
    requires p >= 1
  {
    var r := Round(d.coef * Pow10(18), p);
    var (whole, amount) := Whole(r.coef, d.exp + r.dropped);
    if !whole then TooManyDecimals else if d.negative || amount == 0 then NotPositive else Ok(amount)
  }

  lemma ShiftExponent(c: nat, k: nat, e: int, v: nat)
    ensures IsValue(c, e + k, v) <==> IsValue(c * Pow10(k), e, v)
  {
    hide Pow10;
    if e >= 0 {
      Pow10Sum(k, e);
      Reassociate(c, Pow10(k), Pow10(e));
    } else if e + k >= 0 {
      Pow10Sum(e + k, -e);
      assert Pow10(k) == Pow10(e + k) * Pow10(-e);
      Reassociate(c, Pow10(e + k), Pow10(-e));
      SameMultiple(v, c * Pow10(e + k), Pow10(-e));
    } else {
      Pow10Sum(-e - k, k);
      Reassociate(v, Pow10(-e - k), Pow10(k));
      SameMultiple(v * Pow10(-e - k), c, Pow10(k));
    }
  }

  lemma SameMultiple(a: nat, b: nat, m: nat)
    requires m > 0
    ensures a * m == b * m <==> a == b
  {
    if a < b {
      OneMultiple(a, b, m);
    } else if b < a {
      OneMultiple(b, a, m);
    }
  }

  lemma OneMultiple(a: nat, b: nat, m: nat)
    requires m > 0 && a < b
    ensures a * m < b * m
  {
  }

  lemma OneCoefficient(c: nat, d: nat, e: int, v: nat)
    requires IsValue(c, e, v) && IsValue(d, e, v)
    ensures c == d
  {
    if e >= 0 {
      SameMultiple(c, d, Pow10(e));
    }
  }

  lemma OneValue(c: nat, e: int, v: nat, w: nat)
    requires IsValue(c, e, v) && IsValue(c, e, w)
    ensures v == w
  {
    if e < 0 {
      SameMultiple(v, w, Pow10(-e));
    }
  }

  /** The amount written, in atto. */
  ghost predicate Exactly(d: Dec, amount: nat) { IsValue(d.coef, d.exp + 18, amount) }

  /** What is returned is what was written exactly when it was written with at most `p` significant digits. */
  lemma ParsedExactlyIff(d: Dec, p: nat)
    requires p >= 1 && ParseDecimal(d, p).Ok?
    ensures Exactly(d, ParseDecimal(d, p).amount) <==> Significant(d.coef) < Pow10(p)
  {
    hide Pow10, Round, Significant, IsValue, Whole;
    var c, v := d.coef * Pow10(18), ParseDecimal(d, p).amount;
    var r := Round(c, p);
    RoundExactIff(c, p);
    SignificantScaled(d.coef, 18);
    ShiftExponent(r.coef, r.dropped, d.exp, v);
    ShiftExponent(d.coef, 18, d.exp, v);
    assert IsValue(r.coef * Pow10(r.dropped), d.exp, v);
    if Exactly(d, v) {
      OneCoefficient(r.coef * Pow10(r.dropped), c, d.exp, v);
    }
  }

  /** Within the precision, a literal is accepted exactly when it is positive and has at most 18 decimals, for its exact
      value. */
  lemma ShortLiteralIff(d: Dec, p: nat, amount: nat)
    requires p >= 1 && Significant(d.coef) < Pow10(p)
    ensures ParseDecimal(d, p) == Ok(amount) <==> !d.negative && amount > 0 && Exactly(d, amount)
  {
    hide Pow10, Round, Significant, IsValue, Whole;
    var c := d.coef * Pow10(18);
    var r := Round(c, p);
    RoundExactIff(c, p);
    SignificantScaled(d.coef, 18);
    ShiftExponent(r.coef, r.dropped, d.exp, amount);
    ShiftExponent(d.coef, 18, d.exp, amount);
    assert IsValue(r.coef, d.exp + r.dropped, amount) <==> Exactly(d, amount);
    var (whole, v) := Whole(r.coef, d.exp + r.dropped);
    if whole && Exactly(d, amount) {
      OneValue(r.coef, d.exp + r.dropped, v, amount);
    }
  }

  /** And why it is refused: a number that is not whole in atto has too many decimals, a whole one is not positive. */
  lemma RefusedWhy(d: Dec, p: nat)
    requires p >= 1 && Significant(d.coef) < Pow10(p)
    ensures ParseDecimal(d, p) == TooManyDecimals <==> forall v :: !Exactly(d, v)
    ensures ParseDecimal(d, p) == NotPositive <==> exists v :: Exactly(d, v) && (d.negative || v == 0)
  {
    hide Pow10, Round, Significant, IsValue, Whole;
    var c := d.coef * Pow10(18);
    var r := Round(c, p);
    RoundExactIff(c, p);
    SignificantScaled(d.coef, 18);
    forall v: nat ensures IsValue(r.coef, d.exp + r.dropped, v) <==> Exactly(d, v) {
      ShiftExponent(r.coef, r.dropped, d.exp, v);
      ShiftExponent(d.coef, 18, d.exp, v);
    }
    var (whole, amount) := Whole(r.coef, d.exp + r.dropped);
    if whole {
      assert Exactly(d, amount);
      forall v: nat | Exactly(d, v) ensures v == amount {
        OneValue(r.coef, d.exp + r.dropped, v, amount);
      }
    }
  }
}
