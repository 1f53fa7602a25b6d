/** UTF-8 measured against the code points it stands for, as table 3-6 of the Unicode Standard encodes them. */
module Utf8Points {
  import opened Utf8

  /** A Unicode scalar value. */
  predicate Scalar(point: nat)
  {
    point < 0xD800 || 0xE000 <= point < 0x110000
  }

  function Tail(bits: nat): (c: char)
    ensures 0x80 <= c as int <= 0xBF
  {
    (0x80 + bits % 64) as char
  }

  function EncodePoint(point: nat): (bytes: string)
    requires Scalar(point)
    ensures 1 <= |bytes| <= 4
  {
    if point < 0x80 then [point as char]
    else if point < 0x800 then [(0xC0 + point / 64) as char, Tail(point)]
    else if point < 0x10000 then [(0xE0 + point / 4096) as char, Tail(point / 64), Tail(point)]
    else [(0xF0 + point / 262144) as char, Tail(point / 4096), Tail(point / 64), Tail(point)]
  }

  predicate Scalars(points: seq<nat>)
  {
    forall i | 0 <= i < |points| :: Scalar(points[i])
  }

  function EncodeText(points: seq<nat>): string
    requires Scalars(points)
  {
    if points == [] then [] else EncodePoint(points[0]) + EncodeText(points[1..])
  }

  // ----- one character

  lemma TwoBytes(point: nat, rest: string)
    requires 0x80 <= point < 0x800
    ensures Lead(EncodePoint(point) + rest) == 2
  {
  }

  lemma ThreeBytes(point: nat, rest: string)
    requires 0x800 <= point < 0x10000 && Scalar(point)
    ensures Lead(EncodePoint(point) + rest) == 3
  {
    var s := EncodePoint(point) + rest;
    var first, second := point / 4096, point / 64 % 64;
    assert s[0] as int == 0xE0 + first && s[1] as int == 0x80 + second && s[2] == Tail(point);
    assert point / 64 == 64 * first + second;
    assert ByteIn(s, 0, 0xE0, 0xEF) && ByteIn(s, 2, 0x80, 0xBF);
    assert SecondOfThree(s);
  }

  lemma FourBytes(point: nat, rest: string)
    requires 0x10000 <= point < 0x110000
    ensures Lead(EncodePoint(point) + rest) == 4
  {
    var s := EncodePoint(point) + rest;
    var first, second := point / 262144, point / 4096 % 64;
    assert s[0] as int == 0xF0 + first && s[1] as int == 0x80 + second;
    assert s[2] == Tail(point / 64) && s[3] == Tail(point);
    assert point / 4096 == 64 * first + second;
    assert ByteIn(s, 0, 0xF0, 0xF4) && ByteIn(s, 2, 0x80, 0xBF) && ByteIn(s, 3, 0x80, 0xBF);
    assert SecondOfFour(s);
  }

  /** The encoding of a code point is one well-formed character, whatever follows it. */
  lemma LeadOfPoint(point: nat, rest: string)
    requires Scalar(point)
    ensures Lead(EncodePoint(point) + rest) == |EncodePoint(point)|
  {
    if point < 0x80 {
      LeadAscii(EncodePoint(point) + rest);
    } else if point < 0x800 {
      TwoBytes(point, rest);
    } else if point < 0x10000 {
      ThreeBytes(point, rest);
    } else {
      FourBytes(point, rest);
    }
  }

  function Bits(c: char): nat
  {
    c as int % 64
  }

  lemma ThreeByteTail(a: nat, s: string) returns (point: nat)
    requires Lead(s) == 3 && a == s[0] as int - 0xE0
    ensures Scalar(point) && EncodePoint(point) == s[..3]
  {
    point := 4096 * a + 64 * Bits(s[1]) + Bits(s[2]);
    assert 0x800 <= point < 0x10000 && Scalar(point);
    assert point / 4096 == a && point / 64 % 64 == Bits(s[1]) && point % 64 == Bits(s[2]);
    assert Tail(point / 64) == s[1] && Tail(point) == s[2];
  }

  lemma Groups(a: nat, b: nat, c: nat, d: nat)
    requires b < 64 && c < 64 && d < 64
    ensures var point := 262144 * a + 4096 * b + 64 * c + d;
            point / 262144 == a && point / 4096 == 64 * a + b && point / 64 == 4096 * a + 64 * b + c
  {
  }

  lemma FourByteTail(a: nat, s: string) returns (point: nat)
    requires Lead(s) == 4 && a == s[0] as int - 0xF0
    ensures Scalar(point) && EncodePoint(point) == s[..4]
  {
    var b, c, d := Bits(s[1]), Bits(s[2]), Bits(s[3]);
    point := 262144 * a + 4096 * b + 64 * c + d;
    assert 0x10000 <= point < 0x110000;
    FourByteEncoding(a, b, c, d);
  }

  lemma FourByteEncoding(a: nat, b: nat, c: nat, d: nat)
    requires b < 64 && c < 64 && d < 64
    requires 0x10000 <= 262144 * a + 4096 * b + 64 * c + d < 0x110000
    ensures EncodePoint(262144 * a + 4096 * b + 64 * c + d) ==
            [(0xF0 + a) as char, (0x80 + b) as char, (0x80 + c) as char, (0x80 + d) as char]
  {
    Groups(a, b, c, d);
  }

  /** Every well-formed character is the encoding of a code point. */
  lemma PointOfLead(s: string) returns (point: nat)
    requires Lead(s) > 0
    ensures Scalar(point) && EncodePoint(point) == s[..Lead(s)]
  {
    if Lead(s) == 1 {
      point := s[0] as int;
    } else if Lead(s) == 2 {
      point := 64 * (s[0] as int - 0xC0) + Bits(s[1]);
      assert Tail(point) == s[1];
    } else if Lead(s) == 3 {
      point := ThreeByteTail(s[0] as int - 0xE0, s);
    } else {
      point := FourByteTail(s[0] as int - 0xF0, s);
    }
  }

  // ----- texts

  lemma EncodeCons(point: nat, points: seq<nat>)
    requires Scalar(point) && Scalars(points)
    ensures Scalars([point] + points) && EncodeText([point] + points) == EncodePoint(point) + EncodeText(points)
  {
    assert ([point] + points)[1..] == points;
  }

  lemma {:induction false} EncodedIsUtf8(points: seq<nat>)
    requires Scalars(points)
    ensures ValidUtf8(EncodeText(points))
  {
    hide Lead, EncodePoint;
    if points != [] {
      var first, rest := EncodePoint(points[0]), EncodeText(points[1..]);
      EncodedIsUtf8(points[1..]);
      LeadOfPoint(points[0], rest);
      assert (first + rest)[|first|..] == rest;
    }
  }

  lemma {:induction false} Utf8IsEncoded(s: string) returns (points: seq<nat>)
    requires ValidUtf8(s)
    ensures Scalars(points) && EncodeText(points) == s
    decreases |s|
  {
    hide Lead, EncodePoint;
    if s == [] {
      points := [];
    } else {
      var point := PointOfLead(s);
      var rest := Utf8IsEncoded(s[Lead(s)..]);
      points := [point] + rest;
      EncodeCons(point, rest);
      assert s == s[..Lead(s)] + s[Lead(s)..];
    }
  }

  /** The accepted byte strings are exactly the encodings of sequences of scalar values. */
  lemma Utf8Exact(s: string)
    ensures ValidUtf8(s) <==> exists points :: Scalars(points) && s == EncodeText(points)
  {
    if ValidUtf8(s) {
      var points := Utf8IsEncoded(s);
    }
    if points :| Scalars(points) && s == EncodeText(points) {
      EncodedIsUtf8(points);
    }
  }

  // ----- what a text holds

  predicate ControlPoint(point: nat)
  {
    point < 0x20 || 0x7F <= point <= 0x9F
  }

  lemma ControlOfPoint(point: nat)
    requires Scalar(point)
    ensures ControlCharacter(EncodePoint(point)) <==> ControlPoint(point)
  {
  }

  /** A text has a control character exactly when one of its code points is a control. */
  lemma {:induction false} ControlExact(points: seq<nat>)
    requires Scalars(points)
    ensures ValidUtf8(EncodeText(points))
    ensures HasControl(EncodeText(points)) <==> exists i | 0 <= i < |points| :: ControlPoint(points[i])
  {
    hide Lead, EncodePoint, HasControl, ControlPoint;
    EncodedIsUtf8(points);
    ControlByCharacters(EncodeText(points));
    if points != [] {
      var point, later := points[0], points[1..];
      var first, rest := EncodePoint(point), EncodeText(later);
      ControlExact(later);
      ControlByCharacters(rest);
      LeadOfPoint(point, rest);
      assert (first + rest)[..|first|] == first && (first + rest)[|first|..] == rest;
      ControlOfPoint(point);
      assert forall i | 1 <= i < |points| :: points[i] == later[i - 1];
      assert forall i | 0 <= i < |later| :: later[i] == points[i + 1];
    }
  }

  lemma AsciiOfPoint(c: char, point: nat)
    requires c as int < 0x80 && Scalar(point)
    ensures c in EncodePoint(point) <==> point == c as int
  {
  }

  /** An ASCII byte of a text is always a character of its own. */
  lemma {:induction false} AsciiExact(c: char, points: seq<nat>)
    requires c as int < 0x80 && Scalars(points)
    ensures c in EncodeText(points) <==> c as int in points
  {
    hide EncodePoint;
    if points != [] {
      AsciiOfPoint(c, points[0]);
      AsciiExact(c, points[1..]);
      assert points == [points[0]] + points[1..];
    }
  }

  // ----- the segments of a path

  /** At least one character, not `.` or `..`, and no separator, backslash or control among them. */
  predicate SegmentPoints(points: seq<nat>)
  {
    && points != [] && points != [0x2E] && points != [0x2E, 0x2E]
    && forall i | 0 <= i < |points| ::
         Scalar(points[i]) && points[i] != 0x2F && points[i] != 0x5C && !ControlPoint(points[i])
  }

  ghost predicate SegmentText(s: string)
  {
    exists points :: SegmentPoints(points) && Scalars(points) && s == EncodeText(points)
  }
}
