/** Decimal text of unsigned 64-bit numbers. */
module Decimal {
  import opened Text

  const U64_LIMIT: nat := 0x1_0000_0000_0000_0000

  function DigitChar(d: nat): (c: char)
    requires d < 10
    ensures IsDigit(c) && c as int - '0' as int == d
  {
    ('0' as int + d) as char
  }

  /** `Display` of an unsigned number. */
  function DecimalText(n: nat): string
  {
    if n < 10 then [DigitChar(n)] else DecimalText(n / 10) + [DigitChar(n % 10)]
  }

  predicate AllDigits(s: string)
  {
    forall i | 0 <= i < |s| :: IsDigit(s[i])
  }

  function DecimalValue(s: string): nat
    requires AllDigits(s)
  {
    if s == [] then 0
    else 10 * DecimalValue(s[..|s| - 1]) + (s[|s| - 1] as int - '0' as int)
  }

  /** `str::parse::<u64>`: an optional plus sign, at least one digit, no overflow. */
  function ParseU64(raw: string): (r: Option<nat>)
    ensures r.Some? ==> r.value < U64_LIMIT
  {
    var digits := if raw != [] && raw[0] == '+' then raw[1..] else raw;
    if digits == [] || !AllDigits(digits) || DecimalValue(digits) >= U64_LIMIT then None
    else Some(DecimalValue(digits))
  }

  lemma {:induction false} DecimalDigits(n: nat)
    ensures DecimalText(n) != [] && AllDigits(DecimalText(n)) && DecimalValue(DecimalText(n)) == n
  {
    if n < 10 {
      var s := [DigitChar(n)];
      assert s[..0] == [];
      assert DecimalValue([]) == 0;
    } else {
      DecimalDigits(n / 10);
      var init, s := DecimalText(n / 10), DecimalText(n);
      assert s[..|s| - 1] == init;
    }
  }

  /** Printing then parsing a 64-bit number returns it. */
  lemma ParseDecimal(n: nat)
    requires n < U64_LIMIT
    ensures ParseU64(DecimalText(n)) == Some(n)
  {
    DecimalDigits(n);
    assert IsDigit(DecimalText(n)[0]);
  }

  function Power10(k: nat): nat { if k == 0 then 1 else 10 * Power10(k - 1) }

  lemma {:induction false} DecimalLength(n: nat, k: nat)
    requires k > 0 && n < Power10(k)
    ensures 1 <= |DecimalText(n)| <= k
  {
    if n >= 10 {
      assert k > 1 by { assert Power10(1) == 10 * Power10(0) == 10; }
      DecimalLength(n / 10, k - 1);
    }
  }

  lemma {:induction false} DecimalAtLeast(n: nat, k: nat)
    requires n >= Power10(k)
    ensures |DecimalText(n)| > k
  {
    if k > 0 {
      assert Power10(k - 1) >= 1 by { PowerPositive(k - 1); }
      DecimalAtLeast(n / 10, k - 1);
    }
  }

  lemma {:induction false} PowerPositive(k: nat)
    ensures Power10(k) >= 1
  {
    if k > 0 { PowerPositive(k - 1); }
  }

  lemma U64Length(n: nat)
    requires n < U64_LIMIT
    ensures 1 <= |DecimalText(n)| <= 20
  {
    assert Power10(4) == 10000 by { assert Power10(2) == 100; }
    PowerStep(4);
    PowerStep(8);
    PowerStep(12);
    PowerStep(16);
    DecimalLength(n, 20);
  }

  lemma PowerStep(k: nat)
    ensures Power10(k + 4) == 10000 * Power10(k)
  {
    assert Power10(k + 4) == 10 * Power10(k + 3) == 100 * Power10(k + 2) == 1000 * Power10(k + 1);
  }
}
