/** The 256-bit preview host label: unpadded lowercase base32, section 6 of RFC 4648. */
module PreviewHost {
  import opened Text
  import opened Radix
  import opened Words

  const ENTROPY_BYTES := 32
  const LABEL_LENGTH := 52
  const ALPHABET := "abcdefghijklmnopqrstuvwxyz234567"

  ghost predicate IsEntropy(entropy: seq<nat>) { |entropy| == ENTROPY_BYTES && Digits(entropy, 256) }

  // ----- the alphabet

  function Letter(d: nat): (c: char)
    requires d < 32
  {
    if d < 26 then ('a' as int + d) as char else ('2' as int + d - 26) as char
  }

  lemma LetterIsAlphabet(d: nat)
    requires d < 32
    ensures |ALPHABET| == 32 && ALPHABET[d] == Letter(d)
  {
    assert ALPHABET[..16] == "abcdefghijklmnop" && ALPHABET[16..] == "qrstuvwxyz234567";
  }

  predicate IsLetter(c: char) { 'a' <= c <= 'z' || '2' <= c <= '7' }

  function Index(c: char): (d: nat)
    requires IsLetter(c)
    ensures d < 32 && Letter(d) == c
  {
    if 'a' <= c <= 'z' then c as int - 'a' as int else c as int - '2' as int + 26
  }

  lemma IndexOfLetter(d: nat)
    requires d < 32
    ensures IsLetter(Letter(d)) && Index(Letter(d)) == d
  {
  }

  function Letters(digits: seq<nat>): (s: string)
    requires forall i | 0 <= i < |digits| :: digits[i] < 32
    ensures |s| == |digits| && forall i | 0 <= i < |s| :: s[i] == Letter(digits[i])
  {
    seq(|digits|, i requires 0 <= i < |digits| => Letter(digits[i]))
  }

  function Indices(host: string): (digits: seq<nat>)
    requires forall i | 0 <= i < |host| :: IsLetter(host[i])
    ensures |digits| == |host| && forall i | 0 <= i < |host| :: digits[i] == Index(host[i])
  {
    seq(|host|, i requires 0 <= i < |host| => Index(host[i]))
  }

  lemma AppendLetter(digits: seq<nat>, d: nat)
    requires (forall i | 0 <= i < |digits| :: digits[i] < 32) && d < 32
    ensures |ALPHABET| == 32 && Letters(digits + [d]) == Letters(digits) + [ALPHABET[d]]
    ensures Letters([]) == ""
  {
    LetterIsAlphabet(d);
  }

  // ----- the label and its decoder

  /** The entropy read as one big-endian number, times 16, written with 52 base-32 digits. */
  function HostLabel(entropy: seq<nat>): string
  {
    Letters(FixedDigits(16 * Value(entropy, 256), 32, LABEL_LENGTH))
  }

  /** The entropy a label stands for, if it stands for any. */
  function HostEntropy(host: string): Option<seq<nat>>
  {
    if |host| != LABEL_LENGTH || exists i | 0 <= i < |host| :: !IsLetter(host[i]) then None
    else
      var (q, r) := Divide(Value(Indices(host), 32), 16);
      if r != 0 then None else Some(FixedDigits(q, 256, ENTROPY_BYTES))
  }

  /** 52 five-bit digits hold exactly four bits more than 32 bytes. */
  lemma CapacityExact()
    ensures Power(32, LABEL_LENGTH) == 16 * Power(256, ENTROPY_BYTES)
  {
    assert Power(2, 5) == 32 && Power(2, 8) == 256 && Power(2, 4) == 16 by {
      assert Power(2, 2) == 4;
      assert Power(2, 4) == 16;
      assert Power(2, 6) == 64;
    }
    PowerOfTwo(5, 52);
    PowerOfTwo(8, 32);
    PowerAdd(2, 4, 256);
  }

  lemma EntropyBound(entropy: seq<nat>)
    requires IsEntropy(entropy)
    ensures 16 * Value(entropy, 256) < Power(32, LABEL_LENGTH)
  {
    hide Power, Value;
    ValueBound(entropy, 256);
    CapacityExact();
  }

  /** Decoding a label returns the entropy it was made from, so distinct entropies have distinct labels. */
  lemma DecodeLabel(entropy: seq<nat>)
    requires IsEntropy(entropy)
    ensures HostEntropy(HostLabel(entropy)) == Some(entropy)
  {
    hide Power, Value, FixedDigits, Divide, Letter;
    var v := Value(entropy, 256);
    var digits := FixedDigits(16 * v, 32, LABEL_LENGTH);
    var host := Letters(digits);
    forall i | 0 <= i < |host| ensures IsLetter(host[i]) && Index(host[i]) == digits[i] { IndexOfLetter(digits[i]); }
    assert Indices(host) == digits;
    EntropyBound(entropy);
    ValueOfFixedDigits(16 * v, 32, LABEL_LENGTH);
    DivideUnique(16 * v, 16, v, 0);
    FixedDigitsOfValue(entropy, 256);
  }

  /** Only labels of some entropy decode, and they decode to that entropy. */
  lemma EncodeDecodedLabel(host: string)
    requires HostEntropy(host).Some?
    ensures IsEntropy(HostEntropy(host).value) && HostLabel(HostEntropy(host).value) == host
  {
    hide Power, Value, FixedDigits, Divide, Letter;
    var digits := Indices(host);
    var v := Value(digits, 32);
    var q := Divide(v, 16).0;
    ValueBound(digits, 32);
    CapacityExact();
    ValueOfFixedDigits(q, 256, ENTROPY_BYTES);
    FixedDigitsOfValue(digits, 32);
  }

  // ----- the bit buffer

  function Bits(k: nat): nat { Power(2, k) }

  /** `buffer << 8` on sixteen bits, with the byte in the freed low bits. */
  function ShiftIn(buffer: nat, byte: nat): nat { (buffer * 256) % 0x1_0000 + byte }

  /** The word operations of the loop compute on the number in the buffer: shifting a byte in, reading five
      bits, keeping the low ones, and moving the last bit up. */
  lemma BitOperations(buffer: Word, byte: nat, k: nat)
    requires byte < 256 && k <= WIDTH
    ensures Bits(k) > 0
    ensures Number(Or(ShiftLeft(buffer, 8), FromByte(byte))) == ShiftIn(Number(buffer), byte)
    ensures Number(And(ShiftRight(buffer, k), Low(5))) == (Number(buffer) / Bits(k)) % 32
    ensures Number(And(buffer, Low(k))) == Number(buffer) % Bits(k)
    ensures Number(And(ShiftLeft(buffer, k), Low(5))) == ((Number(buffer) * Bits(k)) % 0x1_0000) % 32
  {
    hide Number, Power, Or, And, ShiftLeft, ShiftRight, Low, FromByte;
    BitsTable();
    WordPower();
    PowerEight();
    ShiftLeftMultiplies(buffer, 8);
    OrIsSum(buffer, byte);
    ShiftRightDivides(buffer, k);
    MaskIsRemainder(ShiftRight(buffer, k), 5);
    MaskIsRemainder(buffer, k);
    ShiftLeftMultiplies(buffer, k);
    MaskIsRemainder(ShiftLeft(buffer, k), 5);
  }

  lemma WordPower()
    ensures Power(2, WIDTH) == 0x1_0000
  {
    PowerEight();
    PowerAdd(2, 8, 8);
  }

  lemma BitsTable()
    ensures Bits(0) == 1 && Bits(1) == 2 && Bits(2) == 4 && Bits(3) == 8 && Bits(4) == 16 && Bits(5) == 32
    ensures Bits(6) == 64 && Bits(7) == 128
  {
    assert Power(2, 2) == 4;
    assert Power(2, 4) == 16;
    assert Power(2, 6) == 64;
  }

  lemma BitsShift(k: nat)
    ensures Bits(k + 5) == 32 * Bits(k) && Bits(k + 8) == 256 * Bits(k)
  {
    assert Power(2, k + 2) == 4 * Power(2, k);
    assert Power(2, k + 4) == 4 * Power(2, k + 2);
    assert Power(2, k + 6) == 4 * Power(2, k + 4);
    assert Power(2, k + 8) == 4 * Power(2, k + 6);
  }

  /** The top five bits leave the buffer and the rest stay. */
  lemma TopFive(buffer: nat, k: nat)
    requires k <= 7 && buffer < 32 * Bits(k)
    ensures Bits(k) > 0
    ensures var digit := (buffer / Bits(k)) % 32;
            digit < 32 && buffer == digit * Bits(k) + buffer % Bits(k) && 0 <= buffer % Bits(k) < Bits(k)
  {
    hide Power;
    BitsTable();
    match k {
      case 0 => case 1 => case 2 => case 3 => case 4 => case 5 => case 6 => case 7 =>
    }
  }

  lemma PushByte(value: nat, buffer: nat, byte: nat, k: nat)
    requires k <= 4 && buffer < Bits(k) && byte < 256
    ensures ShiftIn(buffer, byte) == buffer * 256 + byte < Bits(k + 8)
    ensures (value * Bits(k) + buffer) * 256 + byte == value * Bits(k + 8) + ShiftIn(buffer, byte)
  {
    hide Power;
    BitsTable();
    BitsShift(k);
    assert Bits(k) <= 16;
    assert value * (256 * Bits(k)) == 256 * (value * Bits(k));
  }

  lemma EmitDigit(value: nat, buffer: nat, k: nat)
    requires k <= 7 && buffer < Bits(k + 5)
    ensures Bits(k) > 0
    ensures var digit, rest := (buffer / Bits(k)) % 32, buffer % Bits(k);
            digit < 32 && rest < Bits(k) && (value * 32 + digit) * Bits(k) + rest == value * Bits(k + 5) + buffer
  {
    hide Power;
    BitsShift(k);
    TopFive(buffer, k);
    var digit, rest := (buffer / Bits(k)) % 32, buffer % Bits(k);
    calc {
      (value * 32 + digit) * Bits(k) + rest;
      value * 32 * Bits(k) + digit * Bits(k) + rest;
      value * 32 * Bits(k) + buffer;
      value * (32 * Bits(k)) + buffer;
    }
  }

  /** What the loops keep: nothing of the entropy read so far is lost in the sixteen-bit buffer. */
  ghost predicate Buffered(read: seq<nat>, digits: seq<nat>, buffer: nat, bitCount: nat)
  {
    && Digits(digits, 32)
    && buffer < Bits(bitCount)
    && 8 * |read| == 5 * |digits| + bitCount
    && Value(read, 256) == Value(digits, 32) * Bits(bitCount) + buffer
  }

  lemma BufferByte(read: seq<nat>, byte: nat, digits: seq<nat>, buffer: nat, bitCount: nat)
    requires Buffered(read, digits, buffer, bitCount) && bitCount <= 4 && byte < 256
    ensures Buffered(read + [byte], digits, ShiftIn(buffer, byte), bitCount + 8)
  {
    hide Bits, ShiftIn, Value;
    ValueAppend(read, byte, 256);
    PushByte(Value(digits, 32), buffer, byte, bitCount);
  }

  lemma BufferDigit(read: seq<nat>, digits: seq<nat>, buffer: nat, bitCount: nat)
    requires Buffered(read, digits, buffer, bitCount + 5) && bitCount <= 7
    ensures Bits(bitCount) > 0
    ensures var digit := (buffer / Bits(bitCount)) % 32;
            digit < 32 && Buffered(read, digits + [digit], buffer % Bits(bitCount), bitCount)
  {
    hide Bits, Value;
    EmitDigit(Value(digits, 32), buffer, bitCount);
    ValueAppend(digits, (buffer / Bits(bitCount)) % 32, 32);
  }

  lemma FinalDigit(entropy: seq<nat>, digits: seq<nat>, buffer: nat)
    requires IsEntropy(entropy) && Buffered(entropy, digits, buffer, 1)
    ensures var last := (buffer * 16) % 32;
            last < 32 && Digits(digits + [last], 32) && |digits| == 51
            && digits + [last] == FixedDigits(16 * Value(entropy, 256), 32, LABEL_LENGTH)
  {
    hide Value, FixedDigits, Power;
    BitsTable();
    var last := (buffer * 16) % 32;
    assert last == buffer * 16;
    ValueAppend(digits, last, 32);
    FixedDigitsOfValue(digits + [last], 32);
  }

  /** `encode_preview_host`: the two nested loops and the final digit. */
  method EncodePreviewHost(entropy: seq<nat>) returns (output: string)
    requires IsEntropy(entropy)
    ensures output == HostLabel(entropy)
  {
    hide Value, FixedDigits, Power, Bits, ShiftIn, Letter, Letters, Buffered, HostLabel;
    hide Number, Or, And, ShiftLeft, ShiftRight, Low, FromByte;
    output := "";
    var buffer: Word, bitCount: nat := ZERO, 0;
    ghost var digits: seq<nat> := [];
    EmptyBuffer(entropy);
    AppendLetter([], 0);
    for k := 0 to |entropy|
      invariant bitCount <= 4 && Buffered(entropy[..k], digits, Number(buffer), bitCount)
      invariant Digits(digits, 32) && output == Letters(digits)
    {
      Advance(entropy, k);
      BufferByte(entropy[..k], entropy[k], digits, Number(buffer), bitCount);
      BitOperations(buffer, entropy[k], 0);
      buffer, bitCount := Or(ShiftLeft(buffer, 8), FromByte(entropy[k])), bitCount + 8;
      while bitCount >= 5
        invariant bitCount <= 12 && Buffered(entropy[..k + 1], digits, Number(buffer), bitCount)
        invariant Digits(digits, 32) && output == Letters(digits)
      {
        bitCount := bitCount - 5;
        BufferDigit(entropy[..k + 1], digits, Number(buffer), bitCount);
        BitOperations(buffer, 0, bitCount);
        var index := Number(And(ShiftRight(buffer, bitCount), Low(5)));
        AppendLetter(digits, index);
        output := output + [ALPHABET[index]];
        digits := digits + [index];
        buffer := And(buffer, Low(bitCount));
      }
    }
    assert entropy[..|entropy|] == entropy;
    OneBitLeft(entropy, digits, Number(buffer), bitCount);
    LastDigit(entropy, digits, buffer);
    var index := Number(And(ShiftLeft(buffer, 5 - bitCount), Low(5)));
    AppendLetter(digits, index);
    output := output + [ALPHABET[index]];
  }

  lemma LastDigit(entropy: seq<nat>, digits: seq<nat>, buffer: Word)
    requires IsEntropy(entropy) && Buffered(entropy, digits, Number(buffer), 1)
    ensures var index := Number(And(ShiftLeft(buffer, 4), Low(5)));
            && index < 32 && Digits(digits + [index], 32)
            && HostLabel(entropy) == Letters(digits + [index])
  {
    hide Number, Power, Value, FixedDigits, Or, And, ShiftLeft, Low, Letters;
    FinalDigit(entropy, digits, Number(buffer));
    BitOperations(buffer, 0, 4);
    BitsTable();
  }

  lemma OneBitLeft(entropy: seq<nat>, digits: seq<nat>, buffer: nat, bitCount: nat)
    requires |entropy| == ENTROPY_BYTES && Buffered(entropy, digits, buffer, bitCount) && bitCount <= 4
    ensures bitCount == 1
  {
  }

  lemma EmptyBuffer(entropy: seq<nat>)
    ensures Buffered(entropy[..0], [], Number(ZERO), 0)
  {
    hide Number;
    assert entropy[..0] == [];
    NumberRepeat(WIDTH);
    BitsTable();
  }
}
