/** Percent encoding of path segments, sections 2.1 and 2.3 of RFC 3986. */
module Percent {
  import opened Text

  predicate IsHex(c: char) { IsDigit(c) || 'a' <= c <= 'f' || 'A' <= c <= 'F' }

  function HexValue(c: char): (v: nat)
    requires IsHex(c)
    ensures v < 16
  {
    if IsDigit(c) then c as int - '0' as int
    else if 'a' <= c <= 'f' then c as int - 'a' as int + 10
    else c as int - 'A' as int + 10
  }

  function HexDigit(v: nat): (c: char)
    requires v < 16
    ensures IsHex(c) && HexValue(c) == v
  {
    if v < 10 then ('0' as int + v) as char else ('A' as int + v - 10) as char
  }

  /** The segment encode set: controls, the listed punctuation and every byte outside ASCII. */
  predicate MustEncode(c: char)
  {
    || c as int < 0x20 || c as int >= 0x7F
    || c in {' ', '!', '"', '#', '$', '%', '&', '\'', '(', ')', '*', '+', ',', '/', ':', ';', '<', '=', '>', '?',
             '@', '[', '\\', ']', '^', '`', '{', '|', '}'}
  }

  predicate Unreserved(c: char) { IsAlphanumeric(c) || c == '-' || c == '.' || c == '_' || c == '~' }

  /** What the table leaves alone is exactly the unreserved set of section 2.3. */
  lemma EncodeSetIsComplement(c: char)
    ensures MustEncode(c) <==> !Unreserved(c)
  {
  }

  function EncodeByte(c: char): string
  {
    if MustEncode(c) then ['%', HexDigit((c as int / 16) % 16), HexDigit(c as int % 16)] else [c]
  }

  /** `utf8_percent_encode` of one segment. */
  function Encode(s: string): string
  {
    if s == [] then [] else EncodeByte(s[0]) + Encode(s[1..])
  }

  predicate EscapeAt(s: string, i: nat)
  {
    i + 2 < |s| && s[i] == '%' && IsHex(s[i + 1]) && IsHex(s[i + 2])
  }

  /** `percent_decode_str`: a malformed escape is left as it is. */
  function Decode(s: string): string
  {
    if s == [] then []
    else if EscapeAt(s, 0) then [(16 * HexValue(s[1]) + HexValue(s[2])) as char] + Decode(s[3..])
    else [s[0]] + Decode(s[1..])
  }

  /** Every `%` starts an escape. */
  predicate WellEscaped(s: string)
  {
    forall i | 0 <= i < |s| && s[i] == '%' :: EscapeAt(s, i)
  }

  /** The scanner of `validate_percent_encoding`, which steps over the two digits of each escape. */
  method ValidatePercentEncoding(value: string) returns (ok: bool)
    ensures ok <==> WellEscaped(value)
  {
    var next := 0;
    while next < |value|
      invariant 0 <= next <= |value|
      invariant forall i | 0 <= i < next && value[i] == '%' :: EscapeAt(value, i)
    {
      var byte := value[next];
      next := next + 1;
      if byte == '%' {
        var first := if next < |value| then Some(value[next]) else None;
        if next < |value| { next := next + 1; }
        var second := if next < |value| then Some(value[next]) else None;
        if next < |value| { next := next + 1; }
        if !(first.Some? && IsHex(first.value)) || !(second.Some? && IsHex(second.value)) {
          return false;
        }
      }
    }
    return true;
  }

  lemma Nibbles(n: nat)
    requires n < 256
    ensures 16 * ((n / 16) % 16) + n % 16 == n
  {
  }

  lemma DecodeEscape(high: char, low: char, rest: string)
    requires IsHex(high) && IsHex(low)
    ensures Decode(['%', high, low] + rest) == [(16 * HexValue(high) + HexValue(low)) as char] + Decode(rest)
  {
    var s := ['%', high, low] + rest;
    assert s[0] == '%' && s[1] == high && s[2] == low && s[3..] == rest;
  }

  lemma DecodePlain(c: char, rest: string)
    requires c != '%'
    ensures Decode([c] + rest) == [c] + Decode(rest)
  {
    var s := [c] + rest;
    assert s[0] == c && s[1..] == rest;
  }

  lemma DecodeEncodedByte(c: char, rest: string)
    requires c as int < 256
    ensures Decode(EncodeByte(c) + rest) == [c] + Decode(rest)
  {
    hide Decode;
    if MustEncode(c) {
      Nibbles(c as int);
      DecodeEscape(HexDigit((c as int / 16) % 16), HexDigit(c as int % 16), rest);
    } else {
      DecodePlain(c, rest);
    }
  }

  /** Decoding undoes encoding, byte for byte. */
  lemma {:induction false} DecodeEncode(s: string)
    requires forall i | 0 <= i < |s| :: s[i] as int < 256
    ensures Decode(Encode(s)) == s
  {
    if s != [] {
      DecodeEncodedByte(s[0], Encode(s[1..]));
      DecodeEncode(s[1..]);
      assert s == [s[0]] + s[1..];
    }
  }

  predicate EncodedChar(c: char) { Unreserved(c) || c == '%' }

  /** Encoded text is unreserved characters and escapes, so it holds no delimiter. */
  lemma {:induction false} EncodedChars(s: string)
    ensures forall i | 0 <= i < |Encode(s)| :: EncodedChar(Encode(s)[i])
    ensures |s| <= |Encode(s)| <= 3 * |s|
  {
    if s != [] {
      EncodeSetIsComplement(s[0]);
      EncodedChars(s[1..]);
    }
  }

  lemma EscapedConcat(a: string, b: string)
    requires WellEscaped(a) && WellEscaped(b)
    ensures WellEscaped(a + b)
  {
    var s := a + b;
    forall i | 0 <= i < |s| && s[i] == '%' ensures EscapeAt(s, i) {
      if i < |a| {
        assert EscapeAt(a, i);
      } else {
        assert EscapeAt(b, i - |a|);
      }
    }
  }

  lemma {:induction false} EncodedEscaped(s: string)
    ensures WellEscaped(Encode(s))
  {
    if s != [] {
      EncodedEscaped(s[1..]);
      EncodeSetIsComplement(s[0]);
      assert WellEscaped(EncodeByte(s[0]));
      EscapedConcat(EncodeByte(s[0]), Encode(s[1..]));
    }
  }

  /** No escape straddles a separator: the pieces are well escaped exactly when the whole is. */
  lemma EscapedCut(a: string, c: char, b: string)
    requires c != '%' && !IsHex(c)
    ensures WellEscaped(a + [c] + b) <==> WellEscaped(a) && WellEscaped(b)
  {
    var s, k := a + [c] + b, |a| + 1;
    assert forall i | 0 <= i < |a| :: s[i] == a[i] && (EscapeAt(s, i) <==> EscapeAt(a, i));
    assert forall i | 0 <= i < |b| :: s[i + k] == b[i] && (EscapeAt(s, i + k) <==> EscapeAt(b, i));
    if WellEscaped(s) {
      forall i | 0 <= i < |b| && b[i] == '%' ensures EscapeAt(b, i) { assert s[i + k] == '%'; }
    }
    if WellEscaped(a) && WellEscaped(b) {
      forall i | 0 <= i < |s| && s[i] == '%' ensures EscapeAt(s, i) {
        if i >= k { assert b[i - k] == '%'; }
      }
    }
  }

  lemma {:induction false} EscapedJoin(parts: seq<string>, sep: char)
    requires parts != [] && sep != '%' && !IsHex(sep)
    ensures WellEscaped(Join(parts, sep)) <==> forall i | 0 <= i < |parts| :: WellEscaped(parts[i])
  {
    hide WellEscaped;
    if |parts| > 1 {
      var rest := parts[1..];
      EscapedJoin(rest, sep);
      EscapedCut(parts[0], sep, Join(rest, sep));
      assert forall i | 1 <= i < |parts| :: parts[i] == rest[i - 1];
      assert forall i | 0 <= i < |rest| :: rest[i] == parts[i + 1];
    }
  }

  /** An accepted encoded path splits into segments that are well escaped on their own. */
  lemma EscapesStayInSegments(path: string)
    ensures WellEscaped(path) <==>
              forall i | 0 <= i < |Split(path, '/')| :: WellEscaped(Split(path, '/')[i])
  {
    hide WellEscaped, Split;
    JoinSplit(path, '/');
    EscapedJoin(Split(path, '/'), '/');
  }
}
