/** The path validators, stated over the characters that a path is made of. */
module PathTexts {
  import opened Text
  import opened Utf8
  import opened Utf8Points
  import opened Paths

  // ----- segments

  /** A text starts with an ASCII byte exactly when it starts with that character. */
  lemma AsciiHead(points: seq<nat>, c: char, rest: string)
    requires Scalars(points) && c as int < 0x80
    ensures EncodeText(points) == [c] + rest <==>
              points != [] && points[0] == c as int && EncodeText(points[1..]) == rest
  {
    if points != [] {
      var first, later := EncodePoint(points[0]), EncodeText(points[1..]);
      assert (first + later)[0] == first[0];
      if points[0] == c as int {
        assert first == [c];
        assert (first + later)[1..] == later && ([c] + rest)[1..] == rest;
      }
    }
  }

  lemma DotsEncoded(points: seq<nat>)
    requires Scalars(points)
    ensures EncodeText(points) == "" <==> points == []
    ensures EncodeText(points) == "." <==> points == [0x2E]
    ensures EncodeText(points) == ".." <==> points == [0x2E, 0x2E]
  {
    hide EncodePoint;
    AsciiHead(points, '.', "");
    AsciiHead(points, '.', ".");
    assert "." + "" == "." && "." + "." == "..";
    if points != [] {
      AsciiHead(points[1..], '.', "");
      assert points == [points[0]] + points[1..];
    }
  }

  /** What both validators ask of a segment, told by its characters. */
  lemma SegmentExact(s: string)
    ensures SegmentText(s) <==> ValidUtf8(s) && SafeSegment(s) && '/' !in s
  {
    hide EncodeText, HasControl, ControlPoint;
    if SegmentText(s) {
      var points :| SegmentPoints(points) && Scalars(points) && s == EncodeText(points);
      SegmentOf(points);
    }
    if ValidUtf8(s) && SafeSegment(s) && '/' !in s {
      var points := Utf8IsEncoded(s);
      SegmentOf(points);
    }
  }

  lemma SegmentOf(points: seq<nat>)
    requires Scalars(points)
    ensures ValidUtf8(EncodeText(points))
    ensures SegmentPoints(points) <==> SafeSegment(EncodeText(points)) && '/' !in EncodeText(points)
  {
    hide EncodeText, HasControl, ControlPoint;
    ControlExact(points);
    DotsEncoded(points);
    AsciiExact('/', points);
    AsciiExact('\\', points);
  }

  // ----- paths

  ghost predicate SegmentTexts(parts: seq<string>)
  {
    parts != [] && forall i | 0 <= i < |parts| :: SegmentText(parts[i])
  }

  /** Segments with one slash between neighbours. */
  ghost predicate PathOf(value: string, parts: seq<string>)
  {
    SegmentTexts(parts) && value == Join(parts, '/')
  }

  lemma PathOfPieces(value: string, parts: seq<string>)
    requires PathOf(value, parts)
    ensures parts == Split(value, '/') && Pieces(parts, '/') && AllSafe(parts) && ValidUtf8(value)
  {
    hide SegmentText, SafeSegment, ValidUtf8, Split, Join;
    forall i | 0 <= i < |parts| ensures ValidUtf8(parts[i]) && SafeSegment(parts[i]) && '/' !in parts[i] {
      SegmentExact(parts[i]);
    }
    SplitJoin(parts, '/');
    Utf8Join(parts, '/');
  }

  /** On text, both validators accept exactly the lists of segments within the limit. */
  lemma PathExact(value: string, maximumBytes: nat)
    requires ValidUtf8(value)
    ensures IsValidRelativePath(value, maximumBytes) <==>
              |value| <= maximumBytes && exists parts :: PathOf(value, parts)
  {
    hide SegmentText, SafeSegment, ValidUtf8, Split, Join, IsValidRelativePath;
    var parts := Split(value, '/');
    JoinSplit(value, '/');
    SplitPieces(value, '/');
    Utf8Join(parts, '/');
    if IsValidRelativePath(value, maximumBytes) {
      RelativeLength(value, maximumBytes);
      RelativePathSegments(value, maximumBytes);
      forall i | 0 <= i < |parts| ensures SegmentText(parts[i]) { SegmentExact(parts[i]); }
      assert PathOf(value, parts);
    }
    if written :| PathOf(value, written) {
      PathOfPieces(value, written);
      if |value| <= maximumBytes { SafeIsRelative(value, maximumBytes); }
    }
  }

  lemma RelativeLength(value: string, maximumBytes: nat)
    requires IsValidRelativePath(value, maximumBytes)
    ensures |value| <= maximumBytes
  {
  }

  lemma SafeIsRelative(value: string, maximumBytes: nat)
    requires AllSafe(Split(value, '/')) && |value| <= maximumBytes
    ensures IsValidRelativePath(value, maximumBytes)
  {
    hide HasControl, Split, Join;
    SplitPieces(value, '/');
    JoinSplit(value, '/');
    JoinedFacts(Split(value, '/'));
  }

  /** A storage key is a path of at most 512 bytes. */
  lemma StorageKeyExact(value: string)
    requires ValidUtf8(value)
    ensures IsStorageKey(value) <==> |value| <= 512 && exists parts :: PathOf(value, parts)
  {
    hide IsValidRelativePath, ValidUtf8, PathOf;
    PathExact(value, 512);
  }

  /** A logical path is a path of at most 2048 bytes, and a longer text is reported as such. */
  lemma LogicalPathExact(value: string)
    requires ValidUtf8(value)
    ensures ValidateDecodedPath(value) == Oversized <==> |value| > 2048
    ensures ValidateDecodedPath(value) == Fine <==> |value| <= 2048 && exists parts :: PathOf(value, parts)
  {
    hide IsValidRelativePath, ValidUtf8, PathOf, ValidateDecodedPath;
    ValidatorsAgree(value);
    PathExact(value, 2048);
  }

  /** A Yard path is a path of at most 1024 bytes whose first segment is not the reserved directory. */
  lemma YardPathSegments(value: string)
    requires ValidUtf8(value)
    ensures IsValidYardPath(value) <==>
              |value| <= 1024 && exists parts :: PathOf(value, parts) && parts[0] != ".blobyard"
  {
    hide IsValidRelativePath, ValidUtf8, PathOf, Split;
    PathExact(value, 1024);
    forall parts | PathOf(value, parts) ensures parts == Split(value, '/') { PathOfPieces(value, parts); }
  }

  // ----- dot segments

  /** Every segment with a slash before it. */
  function Slashed(segments: seq<string>): string
  {
    if segments == [] then "" else Slashed(segments[..|segments| - 1]) + "/" + segments[|segments| - 1]
  }

  predicate Dots(segment: string) { segment == "." || segment == ".." }

  /** What is left of a list of segments: a single dot is skipped, a double dot removes the one before it. */
  function Resolved(parts: seq<string>, before: seq<string>): seq<string>
  {
    if parts == [] then before
    else if parts[0] == "." then Resolved(parts[1..], before)
    else if parts[0] == ".." then Resolved(parts[1..], if before == [] then [] else before[..|before| - 1])
    else Resolved(parts[1..], before + [parts[0]])
  }

  lemma {:induction false} DropLast(prefix: string, segment: string)
    requires '/' !in segment
    ensures DropSegment(prefix + "/" + segment) == prefix
  {
    var s := prefix + "/" + segment;
    if segment == "" {
      assert s[|s| - 1] == '/' && s[..|s| - 1] == prefix;
    } else {
      var init := segment[..|segment| - 1];
      assert s[|s| - 1] == segment[|segment| - 1] && s[..|s| - 1] == prefix + "/" + init;
      DropLast(prefix, init);
    }
  }

  lemma TrailingDots(segment: string, output: string)
    requires Dots(segment)
    ensures RemoveDotSegments("/" + segment, output) == (if segment == "." then output else DropSegment(output)) + "/"
  {
    hide DropSegment;
    var input := "/" + segment;
    assert input[0] == '/' && "./"[0] == '.' && "../"[0] == '.';
    if segment == "." {
      assert input == "/.";
      assert !("../" <= input) && !("./" <= input) && !("/./" <= input);
      NothingLeft(output);
    } else {
      assert input == "/..";
      assert input[2] == '.' && !("../" <= input) && !("./" <= input) && !("/./" <= input) && !("/../" <= input);
      NothingLeft(DropSegment(output));
    }
  }

  /** Removal of dot segments, on every absolute path, by segments: exactly those that are left over, with a
      slash at the end if the last one was a dot segment. */
  lemma {:induction false} ResolvedExact(parts: seq<string>, before: seq<string>)
    requires Pieces(parts, '/') && forall i | 0 <= i < |before| :: '/' !in before[i]
    ensures RemoveDotSegments("/" + Join(parts, '/'), Slashed(before)) ==
            Slashed(Resolved(parts, before)) + if Dots(parts[|parts| - 1]) then "/" else ""
    decreases |parts|
  {
    hide RemoveDotSegments, DropSegment;
    var head, tail, output := parts[0], parts[1..], Slashed(before);
    var next :=
      if head == "." then before
      else if head == ".." then if before == [] then [] else before[..|before| - 1]
      else before + [head];
    assert Slashed(next) ==
           if head == "." then output else if head == ".." then DropSegment(output) else output + "/" + head by {
      if head == ".." && before != [] { DropLast(Slashed(before[..|before| - 1]), before[|before| - 1]); }
      if head == ".." && before == [] { DropEmpty(); }
      if !Dots(head) { assert next[..|next| - 1] == before; }
    }
    if tail == [] {
      assert Resolved(tail, next) == next;
      if Dots(head) {
        TrailingDots(head, output);
      } else {
        OrdinaryStep(head, "", output);
        assert "/" + head + "" == "/" + head;
        NothingLeft(output + "/" + head);
        assert Slashed(next) + "" == Slashed(next);
      }
    } else {
      var rest := "/" + Join(tail, '/');
      assert "/" + Join(parts, '/') == "/" + head + rest;
      if Dots(head) { DottedStep(head, rest, output); } else { OrdinaryStep(head, rest, output); }
      ResolvedExact(tail, next);
    }
  }

  lemma DropEmpty()
    ensures DropSegment("") == ""
  {
  }
}
