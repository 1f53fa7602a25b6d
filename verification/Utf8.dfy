/** UTF-8 text as byte strings. Every byte is written as the character with its code. */
module Utf8 {
  import opened Text

  predicate ByteIn(s: string, i: nat, low: int, high: int)
  {
    i < |s| && low <= s[i] as int <= high
  }

  /** Length of the well-formed encoded character that `s` starts with, 0 when there is none. */
  function Lead(s: string): (n: nat)
    ensures n <= |s|
    ensures forall i | 1 <= i < n :: 0x80 <= s[i] as int <= 0xBF
    ensures n > 1 ==> 0xC2 <= s[0] as int <= 0xF4
  {
    if ByteIn(s, 0, 0x00, 0x7F) then 1
    else if ByteIn(s, 0, 0xC2, 0xDF) && ByteIn(s, 1, 0x80, 0xBF) then 2
    else if ByteIn(s, 0, 0xE0, 0xEF) && SecondOfThree(s) && ByteIn(s, 2, 0x80, 0xBF) then 3
    else if ByteIn(s, 0, 0xF0, 0xF4) && SecondOfFour(s) && ByteIn(s, 2, 0x80, 0xBF) && ByteIn(s, 3, 0x80, 0xBF) then 4
    else 0
  }

  predicate SecondOfThree(s: string)
    requires s != []
  {
    match s[0] as int
    case 0xE0 => ByteIn(s, 1, 0xA0, 0xBF)
    case 0xED => ByteIn(s, 1, 0x80, 0x9F)
    case _ => ByteIn(s, 1, 0x80, 0xBF)
  }

  predicate SecondOfFour(s: string)
    requires s != []
  {
    match s[0] as int
    case 0xF0 => ByteIn(s, 1, 0x90, 0xBF)
    case 0xF4 => ByteIn(s, 1, 0x80, 0x8F)
    case _ => ByteIn(s, 1, 0x80, 0xBF)
  }

  predicate ValidUtf8(s: string)
    decreases |s|
  {
    s == [] || (Lead(s) > 0 && ValidUtf8(s[Lead(s)..]))
  }

  lemma LeadPrefix(a: string, b: string)
    requires 0 < Lead(a) || (b != [] && a != [] && b[0] as int < 0x80)
    ensures Lead(a + b) == Lead(a)
  {
    var s := a + b;
    assert forall i | 0 <= i < |a| :: s[i] == a[i];
    assert b != [] ==> s[|a|] == b[0];
  }

  lemma {:induction false} Utf8Concat(a: string, b: string)
    requires ValidUtf8(a) && ValidUtf8(b)
    ensures ValidUtf8(a + b)
    decreases |a|
  {
    hide Lead;
    if a == [] {
      assert a + b == b;
    } else {
      LeadPrefix(a, b);
      var n := Lead(a);
      Utf8Concat(a[n..], b);
      assert (a + b)[n..] == a[n..] + b;
    }
  }

  /** An ASCII byte is a character boundary on both sides. */
  lemma {:induction false} Utf8Cut(a: string, c: char, b: string)
    requires c as int < 0x80
    ensures ValidUtf8(a + [c] + b) <==> ValidUtf8(a) && ValidUtf8(b)
    decreases |a|
  {
    hide Lead;
    var s := a + [c] + b;
    if a == [] {
      LeadAscii(s);
      assert s[1..] == b;
    } else {
      assert s == a + ([c] + b);
      LeadPrefix(a, [c] + b);
      var n := Lead(a);
      if n > 0 {
        assert s[n..] == a[n..] + [c] + b;
        Utf8Cut(a[n..], c, b);
      }
    }
  }

  lemma LeadAscii(s: string)
    requires s != [] && s[0] as int < 0x80
    ensures Lead(s) == 1
  {
  }

  /** Joined with an ASCII separator, pieces are well formed together exactly when each is. */
  lemma {:induction false} Utf8Join(parts: seq<string>, sep: char)
    requires parts != [] && sep as int < 0x80
    ensures ValidUtf8(Join(parts, sep)) <==> forall i | 0 <= i < |parts| :: ValidUtf8(parts[i])
  {
    hide ValidUtf8;
    if |parts| > 1 {
      var rest := parts[1..];
      Utf8Join(rest, sep);
      Utf8Cut(parts[0], sep, Join(rest, sep));
      assert forall i | 1 <= i < |parts| :: parts[i] == rest[i - 1];
      assert forall i | 0 <= i < |rest| :: rest[i] == parts[i + 1];
    }
  }

  lemma {:induction false} Utf8Bytes(s: string)
    requires ValidUtf8(s)
    ensures forall i | 0 <= i < |s| :: s[i] as int < 256
    decreases |s|
  {
    if s != [] {
      var n := Lead(s);
      Utf8Bytes(s[n..]);
      assert forall i | n <= i < |s| :: s[i] == s[n..][i - n];
    }
  }

  // ----- control characters: U+0000 to U+001F and U+007F to U+009F

  predicate ControlAt(s: string, i: nat)
    requires i < |s|
  {
    s[i] as int < 0x20 || s[i] as int == 0x7F || (s[i] as int == 0xC2 && ByteIn(s, i + 1, 0x80, 0x9F))
  }

  /** `chars().any(char::is_control)`, read off the bytes. */
  predicate HasControl(s: string)
  {
    exists i | 0 <= i < |s| :: ControlAt(s, i)
  }

  /** The same question asked character by character. */
  predicate HasControlCharacter(s: string)
    requires ValidUtf8(s)
    decreases |s|
  {
    s != [] && (ControlCharacter(s[..Lead(s)]) || HasControlCharacter(s[Lead(s)..]))
  }

  predicate ControlCharacter(c: string)
  {
    || (|c| == 1 && (c[0] as int < 0x20 || c[0] as int == 0x7F))
    || (|c| == 2 && c[0] as int == 0xC2 && c[1] as int <= 0x9F)
  }

  lemma {:induction false} ControlByCharacters(s: string)
    requires ValidUtf8(s)
    ensures HasControl(s) <==> HasControlCharacter(s)
    decreases |s|
  {
    if s != [] {
      var n := Lead(s);
      var rest := s[n..];
      ControlByCharacters(rest);
      assert ControlAt(s, 0) <==> ControlCharacter(s[..n]);
      assert forall i | 1 <= i < n :: !ControlAt(s, i);
      assert forall i | 0 <= i < |rest| :: ControlAt(rest, i) <==> ControlAt(s, i + n);
      if HasControl(s) {
        var i :| 0 <= i < |s| && ControlAt(s, i);
        assert i >= n ==> ControlAt(rest, i - n);
      }
      if HasControl(rest) {
        var i :| 0 <= i < |rest| && ControlAt(rest, i);
        assert ControlAt(s, i + n);
      }
    }
  }

  lemma ControlCut(a: string, c: char, b: string)
    requires 0x20 <= c as int < 0x7F
    ensures HasControl(a + [c] + b) <==> HasControl(a) || HasControl(b)
  {
    var s := a + [c] + b;
    var k := |a| + 1;
    assert forall i | 0 <= i < |a| :: ControlAt(s, i) <==> ControlAt(a, i);
    assert !ControlAt(s, |a|);
    assert forall i | 0 <= i < |b| :: ControlAt(s, i + k) <==> ControlAt(b, i);
    if HasControl(s) {
      var i :| 0 <= i < |s| && ControlAt(s, i);
      assert i >= k ==> ControlAt(b, i - k);
    }
    if HasControl(b) {
      var i :| 0 <= i < |b| && ControlAt(b, i);
      assert ControlAt(s, i + k);
    }
  }
}
