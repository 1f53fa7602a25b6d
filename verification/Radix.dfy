/** Fixed-length big-endian digit strings. */
module Radix {

  function Power(base: nat, n: nat): nat { if n == 0 then 1 else base * Power(base, n - 1) }

  ghost predicate Digits(digits: seq<nat>, base: nat)
  {
    forall i | 0 <= i < |digits| :: digits[i] < base
  }

  function Value(digits: seq<nat>, base: nat): nat
  {
    if digits == [] then 0 else Value(digits[..|digits| - 1], base) * base + digits[|digits| - 1]
  }

  /** Quotient and remainder, by repeated subtraction. */
  function Divide(v: nat, base: nat): (r: (nat, nat))
    requires base > 0
    ensures v == r.0 * base + r.1 && r.1 < base
  {
    if v < base then (0, v) else var r := Divide(v - base, base); (r.0 + 1, r.1)
  }

  /** The `n` digits of a number, leading zeros included. */
  function FixedDigits(v: nat, base: nat, n: nat): (digits: seq<nat>)
    requires base > 0
    ensures |digits| == n && Digits(digits, base)
  {
    if n == 0 then [] else FixedDigits(Divide(v, base).0, base, n - 1) + [Divide(v, base).1]
  }

  lemma ValueAppend(digits: seq<nat>, d: nat, base: nat)
    ensures Value(digits + [d], base) == Value(digits, base) * base + d
  {
    assert (digits + [d])[..|digits|] == digits;
  }

  lemma DivideUnique(v: nat, base: nat, q: nat, d: nat)
    requires d < base && v == q * base + d
    ensures Divide(v, base) == (q, d)
  {
    var r := Divide(v, base);
    if r.0 < q {
      ProductMonotone(base, r.0 + 1, q);
      assert false;
    } else if q < r.0 {
      ProductMonotone(base, q + 1, r.0);
      assert false;
    }
  }

  /** Digits are determined by their value and their number. */
  lemma {:induction false} FixedDigitsOfValue(digits: seq<nat>, base: nat)
    requires base > 0 && Digits(digits, base)
    ensures FixedDigits(Value(digits, base), base, |digits|) == digits
  {
    if digits != [] {
      var init, last := digits[..|digits| - 1], digits[|digits| - 1];
      FixedDigitsOfValue(init, base);
      DivideUnique(Value(digits, base), base, Value(init, base), last);
      assert digits == init + [last];
    }
  }

  /** A number below `base` to the power `n` is the value of its `n` digits. */
  lemma {:induction false} ValueOfFixedDigits(v: nat, base: nat, n: nat)
    requires base > 0 && v < Power(base, n)
    ensures Value(FixedDigits(v, base, n), base) == v
  {
    if n > 0 {
      var (q, d) := Divide(v, base);
      SmallerQuotient(v, base, q, Power(base, n - 1));
      ValueOfFixedDigits(q, base, n - 1);
      ValueAppend(FixedDigits(q, base, n - 1), d, base);
    }
  }

  lemma SmallerQuotient(v: nat, base: nat, q: nat, bound: nat)
    requires q * base <= v < base * bound
    ensures q < bound
  {
    if q >= bound {
      ProductMonotone(base, bound, q);
      assert false;
    }
  }

  lemma ProductMonotone(a: nat, x: nat, y: nat)
    requires x <= y
    ensures a * x <= a * y
  {
  }

  lemma {:induction false} ValueBound(digits: seq<nat>, base: nat)
    requires Digits(digits, base)
    ensures Value(digits, base) < Power(base, |digits|)
  {
    if digits != [] {
      var init := digits[..|digits| - 1];
      ValueBound(init, base);
      ProductMonotone(base, Value(init, base) + 1, Power(base, |init|));
      assert base * (Value(init, base) + 1) == Value(init, base) * base + base;
    }
  }

  lemma {:induction false} PowerAdd(base: nat, m: nat, n: nat)
    ensures Power(base, m + n) == Power(base, m) * Power(base, n)
  {
    if m > 0 {
      PowerAdd(base, m - 1, n);
      assert base * (Power(base, m - 1) * Power(base, n)) == base * Power(base, m - 1) * Power(base, n);
    }
  }

  /** Powers of a power of two. */
  lemma {:induction false} PowerOfTwo(k: nat, n: nat)
    ensures Power(Power(2, k), n) == Power(2, k * n)
  {
    if n == 0 {
      assert k * n == 0;
    } else {
      PowerOfTwo(k, n - 1);
      PowerAdd(2, k, k * (n - 1));
      assert k + k * (n - 1) == k * n;
    }
  }
}
