/** Sixteen-bit words as bits, most significant first, and what their operations do to the number they stand for. */
module Words {
  import opened Radix

  const WIDTH := 16

  function Repeat(bit: bool, n: nat): seq<bool> { seq(n, i => bit) }

  type Word = w: seq<bool> | |w| == WIDTH witness seq(WIDTH, i => false)

  const ZERO: Word := Repeat(false, WIDTH)

  /** The number a string of bits stands for. */
  function Number(bits: seq<bool>): nat
  {
    if bits == [] then 0 else Number(bits[..|bits| - 1]) * 2 + if bits[|bits| - 1] then 1 else 0
  }

  // ----- the operations

  function ShiftLeft(w: Word, k: nat): Word
    requires k <= WIDTH
  {
    w[k..] + Repeat(false, k)
  }

  function ShiftRight(w: Word, k: nat): Word
    requires k <= WIDTH
  {
    Repeat(false, k) + w[..WIDTH - k]
  }

  function Or(a: Word, b: Word): Word { seq(WIDTH, i requires 0 <= i < WIDTH => a[i] || b[i]) }

  function And(a: Word, b: Word): Word { seq(WIDTH, i requires 0 <= i < WIDTH => a[i] && b[i]) }

  /** The `k` low bits set: one less than one shifted left by `k`. */
  function Low(k: nat): Word
    requires k <= WIDTH
  {
    Repeat(false, WIDTH - k) + Repeat(true, k)
  }

  function BitsOf(v: nat, n: nat): (bits: seq<bool>)
    ensures |bits| == n
  {
    if n == 0 then [] else BitsOf(v / 2, n - 1) + [v % 2 == 1]
  }

  /** `u16::from` of a byte. */
  function FromByte(byte: nat): Word { Repeat(false, 8) + BitsOf(byte, 8) }

  // ----- numbers

  lemma {:induction false} NumberConcat(a: seq<bool>, b: seq<bool>)
    ensures Number(a + b) == Number(a) * Power(2, |b|) + Number(b)
  {
    if b == [] {
      assert a + b == a;
    } else {
      var init := b[..|b| - 1];
      NumberConcat(a, init);
      assert (a + b)[..|a + b| - 1] == a + init;
      assert Number(a) * (2 * Power(2, |init|)) == Number(a) * Power(2, |init|) * 2;
    }
  }

  lemma {:induction false} NumberBound(bits: seq<bool>)
    ensures Number(bits) < Power(2, |bits|)
  {
    if bits != [] { NumberBound(bits[..|bits| - 1]); }
  }

  lemma {:induction false} NumberRepeat(n: nat)
    ensures Number(Repeat(false, n)) == 0
    ensures Number(Repeat(true, n)) == Power(2, n) - 1
  {
    if n > 0 {
      NumberRepeat(n - 1);
      assert forall bit :: Repeat(bit, n)[..n - 1] == Repeat(bit, n - 1);
    }
  }

  lemma {:induction false} NumberOfBits(v: nat, n: nat)
    requires v < Power(2, n)
    ensures Number(BitsOf(v, n)) == v
  {
    if n > 0 {
      NumberOfBits(v / 2, n - 1);
      assert BitsOf(v, n)[..n - 1] == BitsOf(v / 2, n - 1);
    }
  }

  lemma DivideExactly(v: nat, p: nat, q: nat, r: nat)
    requires v == q * p + r && r < p
    ensures v / p == q && v % p == r
  {
    var d, m := v / p, v % p;
    assert v == d * p + m;
    if d < q {
      ProductMonotone(p, d + 1, q);
      assert false;
    } else if q < d {
      ProductMonotone(p, q + 1, d);
      assert false;
    }
  }

  /** Cutting a word gives quotient and remainder. */
  lemma Cut(w: Word, k: nat)
    requires k <= WIDTH
    ensures Power(2, k) > 0
    ensures Number(w[..WIDTH - k]) == Number(w) / Power(2, k) && Number(w[WIDTH - k..]) == Number(w) % Power(2, k)
  {
    hide Number, Power;
    var high, low := w[..WIDTH - k], w[WIDTH - k..];
    assert w == high + low;
    NumberConcat(high, low);
    NumberBound(low);
    DivideExactly(Number(w), Power(2, k), Number(high), Number(low));
  }

  // ----- what the operations compute

  lemma LeadingZeros(n: nat, bits: seq<bool>)
    ensures Number(Repeat(false, n) + bits) == Number(bits)
  {
    hide Number, Repeat;
    NumberConcat(Repeat(false, n), bits);
    NumberRepeat(n);
  }

  /** Shifting right divides. */
  lemma ShiftRightDivides(w: Word, k: nat)
    requires k <= WIDTH
    ensures Power(2, k) > 0 && Number(ShiftRight(w, k)) == Number(w) / Power(2, k)
  {
    hide Number, Power, Repeat;
    Cut(w, k);
    LeadingZeros(k, w[..WIDTH - k]);
  }

  /** Masking the low bits takes the remainder. */
  lemma MaskIsRemainder(w: Word, k: nat)
    requires k <= WIDTH
    ensures Power(2, k) > 0 && Number(And(w, Low(k))) == Number(w) % Power(2, k)
  {
    hide Number, Power;
    Cut(w, k);
    assert And(w, Low(k)) == Repeat(false, WIDTH - k) + w[WIDTH - k..];
    LeadingZeros(WIDTH - k, w[WIDTH - k..]);
  }

  /** The mask is one less than a power of two. */
  lemma LowIsPower(k: nat)
    requires k <= WIDTH
    ensures Number(Low(k)) == Power(2, k) - 1
  {
    hide Number, Power, Repeat;
    LeadingZeros(WIDTH - k, Repeat(true, k));
    NumberRepeat(k);
  }

  lemma ShiftedLow(w: Word, k: nat)
    requires k <= WIDTH
    ensures Power(2, WIDTH) > 0 && Number(w[k..]) * Power(2, k) == (Number(w) * Power(2, k)) % Power(2, WIDTH)
  {
    hide Number, Power;
    var high, low := Number(w[..k]), Number(w[k..]);
    assert w == w[..k] + w[k..];
    NumberConcat(w[..k], w[k..]);
    NumberBound(w[k..]);
    PowerAdd(2, WIDTH - k, k);
    var p, q := Power(2, WIDTH - k), Power(2, k);
    assert WIDTH - k + k == WIDTH;
    assert (high * p + low) * q == high * (p * q) + low * q by {
      assert (high * p + low) * q == high * p * q + low * q;
      assert high * p * q == high * (p * q);
    }
    NumberBound(w);
    NumberBound(w[..k]);
    assert low * q < p * q by { StrictProduct(low, p, q); }
    DivideExactly(Number(w) * q, p * q, high, low * q);
  }

  lemma StrictProduct(a: nat, b: nat, c: nat)
    requires a < b && c > 0
    ensures a * c < b * c
  {
    ProductMonotone(c, a + 1, b);
  }

  /** Shifting left multiplies, dropping what leaves the word. */
  lemma ShiftLeftMultiplies(w: Word, k: nat)
    requires k <= WIDTH
    ensures Power(2, WIDTH) > 0 && Number(ShiftLeft(w, k)) == (Number(w) * Power(2, k)) % Power(2, WIDTH)
  {
    hide Number, Power, Repeat;
    NumberBound(w);
    ShiftedLow(w, k);
    NumberConcat(w[k..], Repeat(false, k));
    NumberRepeat(k);
  }

  /** A byte enters the low bits that shifting by eight has freed. */
  lemma OrIsSum(w: Word, byte: nat)
    requires byte < 256
    ensures Number(Or(ShiftLeft(w, 8), FromByte(byte))) == Number(ShiftLeft(w, 8)) + byte
  {
    hide Number, Power;
    var bits := BitsOf(byte, 8);
    assert Or(ShiftLeft(w, 8), FromByte(byte)) == w[8..] + bits;
    NumberConcat(w[8..], bits);
    NumberConcat(w[8..], Repeat(false, 8));
    NumberRepeat(8);
    PowerEight();
    NumberOfBits(byte, 8);
  }

  lemma PowerEight()
    ensures Power(2, 8) == 256
  {
    assert Power(2, 2) == 4;
    assert Power(2, 4) == 16;
    assert Power(2, 6) == 64;
  }
}
