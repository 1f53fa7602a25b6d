/** Percent escapes read digit by digit, and decoding measured against that reading. */
module UriEscapes {
  import opened Text
  import opened Utf8
  import opened Paths
  import opened Percent
  import opened BlobyardUri
  import opened UriTheorems

  // ----- escapes

  /** A digit stands for its position in the row of small digits or in the row of capital ones. */
  ghost predicate Digit(c: char, value: nat)
  {
    value < 16 && (c == "0123456789abcdef"[value] || c == "0123456789ABCDEF"[value])
  }

  ghost predicate EscapeOf(text: string, byte: char)
  {
    |text| >= 3 && text[0] == '%'
    && exists high: nat, low: nat :: Digit(text[1], high) && Digit(text[2], low) && byte as int == 16 * high + low
  }

  /** Each byte stands as itself, unless it is a percent sign, or as a percent sign and two digits. */
  ghost predicate Spells(text: string, bytes: string)
    decreases |bytes|
  {
    if bytes == [] then text == []
    else
      || (text != [] && text[0] == bytes[0] && text[0] != '%' && Spells(text[1..], bytes[1..]))
      || (EscapeOf(text, bytes[0]) && Spells(text[3..], bytes[1..]))
  }

  lemma DigitExact(c: char, value: nat)
    ensures Digit(c, value) <==> IsHex(c) && HexValue(c) == value
  {
  }

  lemma EscapeExact(text: string, byte: char)
    ensures EscapeOf(text, byte) <==>
              EscapeAt(text, 0) && byte as int == 16 * HexValue(text[1]) + HexValue(text[2])
  {
    hide Digit, HexValue, IsHex;
    if EscapeOf(text, byte) {
      var high: nat, low: nat :|
        Digit(text[1], high) && Digit(text[2], low) && byte as int == 16 * high + low;
      DigitExact(text[1], high);
      DigitExact(text[2], low);
    }
    if EscapeAt(text, 0) {
      DigitExact(text[1], HexValue(text[1]));
      DigitExact(text[2], HexValue(text[2]));
    }
  }

  /** Whatever the case of its two digits, an escape decodes to the byte they write. */
  lemma EscapeDecodes(high: char, low: char, h: nat, l: nat)
    requires Digit(high, h) && Digit(low, l)
    ensures Decode(['%', high, low]) == [(16 * h + l) as char]
  {
    DigitExact(high, h);
    DigitExact(low, l);
    DecodeEscape(high, low, []);
    assert ['%', high, low] + [] == ['%', high, low];
    assert [(16 * h + l) as char] + [] == [(16 * h + l) as char];
  }

  lemma EscapedTail(text: string, k: nat)
    requires k <= |text| && forall i | 0 <= i < k && text[i] == '%' :: EscapeAt(text, i)
    ensures WellEscaped(text) <==> WellEscaped(text[k..])
  {
    var rest := text[k..];
    assert forall i | 0 <= i < |rest| :: rest[i] == text[i + k] && (EscapeAt(rest, i) <==> EscapeAt(text, i + k));
    if WellEscaped(text) {
      forall i | 0 <= i < |rest| && rest[i] == '%' ensures EscapeAt(rest, i) { assert text[i + k] == '%'; }
    }
    if WellEscaped(rest) {
      forall i | 0 <= i < |text| && text[i] == '%' ensures EscapeAt(text, i) {
        if i >= k { assert rest[i - k] == '%'; }
      }
    }
  }

  lemma {:induction false} SpelledDecodes(text: string, bytes: string)
    requires Spells(text, bytes)
    ensures WellEscaped(text) && Decode(text) == bytes
    decreases |bytes|
  {
    hide HexValue, EscapeOf;
    if bytes != [] {
      assert bytes == [bytes[0]] + bytes[1..];
      if text != [] && text[0] == bytes[0] && text[0] != '%' && Spells(text[1..], bytes[1..]) {
        SpelledDecodes(text[1..], bytes[1..]);
        EscapedTail(text, 1);
      } else {
        EscapeExact(text, bytes[0]);
        SpelledDecodes(text[3..], bytes[1..]);
        EscapedTail(text, 3);
      }
    }
  }

  lemma {:induction false} DecodedSpells(text: string)
    requires WellEscaped(text)
    ensures Spells(text, Decode(text))
    decreases |text|
  {
    hide HexValue, EscapeOf;
    if text != [] {
      var k := if text[0] == '%' then 3 else 1;
      assert text[0] == '%' ==> EscapeAt(text, 0);
      EscapedTail(text, k);
      DecodedSpells(text[k..]);
      assert Decode(text)[1..] == Decode(text[k..]);
      EscapeExact(text, Decode(text)[0]);
    }
  }

  /** A text is well escaped and decodes to the bytes exactly when it spells them. */
  lemma SpellsExact(text: string, bytes: string)
    ensures WellEscaped(text) && Decode(text) == bytes <==> Spells(text, bytes)
  {
    hide WellEscaped, Decode, Spells;
    if WellEscaped(text) { DecodedSpells(text); }
    if Spells(text, bytes) { SpelledDecodes(text, bytes); }
  }

  // ----- the case of the digits

  ghost predicate SameDigit(a: char, b: char)
  {
    exists value: nat :: Digit(a, value) && Digit(b, value)
  }

  ghost predicate RecasedAt(a: string, b: string, i: nat)
    requires i < |a| == |b|
  {
    a[i] == b[i] || (SameDigit(a[i], b[i]) && ((i >= 1 && a[i - 1] == '%') || (i >= 2 && a[i - 2] == '%')))
  }

  /** The texts differ at most in the case of digits that follow a percent sign. */
  ghost predicate Recased(a: string, b: string)
  {
    |a| == |b| && forall i | 0 <= i < |a| :: RecasedAt(a, b, i)
  }

  lemma SameDigitExact(a: char, b: char)
    ensures SameDigit(a, b) <==> IsHex(a) && IsHex(b) && HexValue(a) == HexValue(b)
  {
    hide Digit, HexValue, IsHex;
    if value: nat :| Digit(a, value) && Digit(b, value) {
      DigitExact(a, value);
      DigitExact(b, value);
    }
    if IsHex(a) && IsHex(b) && HexValue(a) == HexValue(b) {
      DigitExact(a, HexValue(a));
      DigitExact(b, HexValue(a));
    }
  }

  lemma RecasedTail(a: string, b: string, k: nat)
    requires Recased(a, b) && k <= |a|
    requires k >= 1 ==> a[k - 1] != '%'
    requires k >= 2 ==> a[k - 2] != '%'
    ensures Recased(a[k..], b[k..])
  {
    hide SameDigit;
    var c, d := a[k..], b[k..];
    forall i | 0 <= i < |c| ensures RecasedAt(c, d, i) { assert RecasedAt(a, b, i + k); }
  }

  lemma RecasedHead(a: string, b: string, k: nat)
    requires Recased(a, b) && k <= |a|
    ensures Recased(a[..k], b[..k])
  {
    hide SameDigit;
    forall i | 0 <= i < k ensures RecasedAt(a[..k], b[..k], i) { assert RecasedAt(a, b, i); }
  }

  lemma RecasedEscape(a: string, b: string)
    requires Recased(a, b) && EscapeAt(a, 0)
    ensures EscapeAt(b, 0) && HexValue(a[1]) == HexValue(b[1]) && HexValue(a[2]) == HexValue(b[2])
    ensures a[1] != '%' && a[2] != '%'
  {
    hide SameDigit, HexValue;
    assert RecasedAt(a, b, 0) && RecasedAt(a, b, 1) && RecasedAt(a, b, 2);
    SameDigitExact(a[1], b[1]);
    SameDigitExact(a[2], b[2]);
  }

  /** Changing the case of escape digits changes nothing that is decoded. */
  lemma {:induction false} RecasedDecodes(a: string, b: string)
    requires WellEscaped(a) && Recased(a, b)
    ensures WellEscaped(b) && Decode(b) == Decode(a)
    decreases |a|
  {
    hide SameDigit, HexValue;
    if a == [] {
    } else if a[0] == '%' {
      assert EscapeAt(a, 0);
      RecasedEscape(a, b);
      RecasedAfterEscape(a, b);
      RecasedDecodes(a[3..], b[3..]);
      EscapedTail(b, 3);
    } else {
      assert RecasedAt(a, b, 0);
      EscapedTail(a, 1);
      RecasedTail(a, b, 1);
      RecasedDecodes(a[1..], b[1..]);
      EscapedTail(b, 1);
    }
  }

  lemma RecasedAfterEscape(a: string, b: string)
    requires WellEscaped(a) && Recased(a, b) && EscapeAt(a, 0)
    ensures WellEscaped(a[3..]) && Recased(a[3..], b[3..])
  {
    hide SameDigit, HexValue;
    EscapedTail(a, 3);
    RecasedTail(a, b, 3);
  }

  lemma SlashKept(a: string, b: string)
    requires Recased(a, b)
    ensures forall i | 0 <= i < |a| :: a[i] == '/' <==> b[i] == '/'
  {
    hide SameDigit, HexValue;
    forall i | 0 <= i < |a| ensures a[i] == '/' <==> b[i] == '/' {
      assert RecasedAt(a, b, i);
      SameDigitExact(a[i], b[i]);
    }
  }

  lemma RecasedCut(a: string, b: string, n: nat)
    requires WellEscaped(a) && Recased(a, b) && n < |a| && a[n] == '/'
    ensures WellEscaped(a[n + 1..]) && Recased(a[..n], b[..n]) && Recased(a[n + 1..], b[n + 1..])
  {
    hide SameDigit, HexValue, Recased;
    assert a == a[..n] + "/" + a[n + 1..];
    EscapedCut(a[..n], '/', a[n + 1..]);
    RecasedHead(a, b, n);
    assert n >= 1 && a[n - 1] == '%' ==> EscapeAt(a, n - 1);
    RecasedTail(a, b, n + 1);
  }

  /** The segments of a re-cased path are its re-cased segments. */
  lemma {:induction false} RecasedSegments(a: string, b: string)
    requires WellEscaped(a) && Recased(a, b)
    ensures |Split(a, '/')| == |Split(b, '/')|
    ensures forall i | 0 <= i < |Split(a, '/')| :: Recased(Split(a, '/')[i], Split(b, '/')[i])
    decreases |a|
  {
    hide SameDigit, RecasedAt, WellEscaped, Split;
    SlashKept(a, b);
    match SplitOnce(a, '/') {
      case None =>
        SplitSingle(a, '/');
        SplitSingle(b, '/');
      case Some((head, rest)) =>
        hide Recased;
        var n := |head|;
        var other, tail := b[..n], b[n + 1..];
        assert a[..n] == head && a[n] == '/' && a[n + 1..] == rest;
        assert b == other + "/" + tail;
        assert '/' !in other by {
          forall i | 0 <= i < n ensures other[i] != '/' { assert a[i] == head[i] && b[i] == other[i]; }
        }
        RecasedCut(a, b, n);
        RecasedSegments(rest, tail);
        SplitConcat(head, '/', rest);
        SplitConcat(other, '/', tail);
        SplitSingle(head, '/');
        SplitSingle(other, '/');
    }
  }

  lemma {:induction false} SameDecoding(a: seq<string>, b: seq<string>)
    requires |a| == |b| && forall i | 0 <= i < |a| :: Decode(a[i]) == Decode(b[i])
    ensures DecodeSegments(a) == DecodeSegments(b)
  {
    hide Decode, ValidUtf8, HasControl;
    if a != [] { SameDecoding(a[1..], b[1..]); }
  }

  /** The parser is blind to the case of escape digits: on a well-escaped path it answers every
      re-casing alike. */
  lemma RecasedPath(a: string, b: string)
    requires WellEscaped(a) && Recased(a, b)
    ensures DecodePath(b) == DecodePath(a)
  {
    hide WellEscaped, Decode, Split, Join, ValidateDecodedPath, DecodeSegments, Recased;
    RecasedDecodes(a, b);
    RecasedSegments(a, b);
    EscapesStayInSegments(a);
    forall i | 0 <= i < |Split(a, '/')| ensures Decode(Split(a, '/')[i]) == Decode(Split(b, '/')[i]) {
      RecasedDecodes(Split(a, '/')[i], Split(b, '/')[i]);
    }
    SameDecoding(Split(a, '/'), Split(b, '/'));
  }

  /** A printed path comes back from every re-casing of its escapes. */
  lemma RecasedRoundTrip(path: string, text: string)
    requires ValidateDecodedPath(path) == Fine && ValidUtf8(path) && Recased(EncodedPath(path), text)
    ensures DecodePath(text) == Ok(path)
  {
    hide ValidateDecodedPath, ValidUtf8, Recased, EncodedPath, DecodePath, WellEscaped;
    EncodedPathShape(path);
    PathRoundTrip(path);
    RecasedPath(EncodedPath(path), text);
  }
}
