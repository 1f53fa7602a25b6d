/** The separately written path validators, and why an accepted key cannot leave its root. */
module Paths {
  import opened Text
  import opened Utf8

  const MAXIMUM_LOGICAL_PATH := 2048
  const MAXIMUM_STORAGE_KEY := 512
  const MAXIMUM_YARD_PATH := 1024

  /** The segment test of the URI's path validator. */
  predicate SafeSegment(segment: string)
  {
    segment != "" && segment != "." && segment != ".." && '\\' !in segment && !HasControl(segment)
  }

  datatype PathVerdict = Fine | Oversized | Unsafe

  /** `validate_decoded_path`. */
  function ValidateDecodedPath(value: string): PathVerdict
  {
    var segments := Split(value, '/');
    if |value| > MAXIMUM_LOGICAL_PATH then Oversized
    else if exists i | 0 <= i < |segments| :: !SafeSegment(segments[i]) then Unsafe
    else Fine
  }

  /** `is_valid_relative_path`. */
  predicate IsValidRelativePath(value: string, maximumBytes: nat)
  {
    && value != "" && |value| <= maximumBytes
    && value[0] != '/' && value[|value| - 1] != '/'
    && '\\' !in value && !HasControl(value)
    && var segments := Split(value, '/');
       forall i | 0 <= i < |segments| :: segments[i] != "" && segments[i] != "." && segments[i] != ".."
  }

  /** `StorageKey::new` accepts. */
  predicate IsStorageKey(value: string) { IsValidRelativePath(value, MAXIMUM_STORAGE_KEY) }

  /** `is_valid_yard_path`. */
  predicate IsValidYardPath(value: string)
  {
    IsValidRelativePath(value, MAXIMUM_YARD_PATH) && Split(value, '/')[0] != ".blobyard"
  }

  /** `is_valid_yard_request_path`: one trailing slash is dropped, the empty path is the root. */
  predicate IsValidYardRequestPath(value: string)
  {
    value == "" ||
    var trimmed := if value[|value| - 1] == '/' then value[..|value| - 1] else value;
    trimmed != "" && IsValidYardPath(trimmed)
  }

  ghost predicate AllSafe(segments: seq<string>)
  {
    forall i | 0 <= i < |segments| :: SafeSegment(segments[i])
  }

  /** What the joined text shows of its pieces. */
  lemma {:induction false} JoinedFacts(parts: seq<string>)
    requires Pieces(parts, '/')
    ensures '\\' in Join(parts, '/') <==> exists i | 0 <= i < |parts| :: '\\' in parts[i]
    ensures HasControl(Join(parts, '/')) <==> exists i | 0 <= i < |parts| :: HasControl(parts[i])
    ensures (forall i | 0 <= i < |parts| :: parts[i] != "") ==>
              var s := Join(parts, '/'); s != "" && s[0] != '/' && s[|s| - 1] != '/'
  {
    hide HasControl;
    if |parts| > 1 {
      var head, rest := parts[0], parts[1..];
      JoinedFacts(rest);
      ControlCut(head, '/', Join(rest, '/'));
      assert forall i | 0 <= i < |rest| :: rest[i] == parts[i + 1];
      assert forall i | 1 <= i < |parts| :: parts[i] == rest[i - 1];
      if i :| 0 <= i < |parts| && '\\' in parts[i] { assert i > 0 ==> '\\' in rest[i - 1]; }
      if i :| 0 <= i < |rest| && '\\' in rest[i] { assert '\\' in parts[i + 1]; }
      if i :| 0 <= i < |parts| && HasControl(parts[i]) { assert i > 0 ==> HasControl(rest[i - 1]); }
      if i :| 0 <= i < |rest| && HasControl(rest[i]) { assert HasControl(parts[i + 1]); }
    }
  }

  /** The two validators accept the same texts once the length limit is the same. */
  lemma ValidatorsAgree(value: string)
    ensures ValidateDecodedPath(value) == Fine <==> IsValidRelativePath(value, MAXIMUM_LOGICAL_PATH)
    ensures ValidateDecodedPath(value) == Oversized <==> |value| > MAXIMUM_LOGICAL_PATH
  {
    hide HasControl, Split, Join;
    SplitPieces(value, '/');
    JoinSplit(value, '/');
    JoinedFacts(Split(value, '/'));
  }

  lemma RelativePathSegments(value: string, maximumBytes: nat)
    requires IsValidRelativePath(value, maximumBytes)
    ensures AllSafe(Split(value, '/')) && Pieces(Split(value, '/'), '/') && Join(Split(value, '/'), '/') == value
  {
    hide HasControl, Split, Join;
    SplitPieces(value, '/');
    JoinSplit(value, '/');
    JoinedFacts(Split(value, '/'));
  }

  const RESERVED_DIRECTORY := ".blobyard"

  /** A Yard path is a relative path that neither is nor lies in the reserved directory. */
  lemma YardPathExact(value: string)
    ensures IsValidYardPath(value) <==>
              && IsValidRelativePath(value, MAXIMUM_YARD_PATH)
              && value != RESERVED_DIRECTORY && !(RESERVED_DIRECTORY + "/" <= value)
  {
    hide IsValidRelativePath, Split, Join;
    var segments := Split(value, '/');
    var reserved: string := RESERVED_DIRECTORY;
    assert '/' !in reserved;
    SplitPieces(value, '/');
    JoinSplit(value, '/');
    if segments[0] == reserved {
      JoinFirst(segments);
    }
    if value == reserved {
      SplitSingle(reserved, '/');
    }
    if reserved + "/" <= value {
      var rest := value[|reserved| + 1..];
      assert value == reserved + "/" + rest;
      SplitConcat(reserved, '/', rest);
      SplitSingle(reserved, '/');
    }
  }

  lemma JoinFirst(parts: seq<string>)
    requires parts != []
    ensures Join(parts, '/') == parts[0] || parts[0] + "/" <= Join(parts, '/')
  {
    if |parts| > 1 {
      assert Join(parts, '/') == (parts[0] + "/") + Join(parts[1..], '/');
    }
  }

  /** A request path is the root, a Yard path, or a Yard path with one slash after it. */
  lemma YardRequestPathExact(value: string)
    ensures IsValidYardRequestPath(value) <==>
              value == "" || IsValidYardPath(value) || exists path :: IsValidYardPath(path) && value == path + "/"
  {
    hide HasControl, Split;
    if path :| IsValidYardPath(path) && value == path + "/" {
      assert value[|value| - 1] == '/' && value[..|value| - 1] == path;
    }
    if value != "" && value[|value| - 1] == '/' && IsValidYardRequestPath(value) {
      var path := value[..|value| - 1];
      assert IsValidYardPath(path) && value == path + "/";
    }
  }

  // ----- removal of dot segments, section 5.2.4 of RFC 3986

  function UntilSlash(s: string): (n: nat)
    ensures n <= |s| && '/' !in s[..n] && (n < |s| ==> s[n] == '/')
  {
    if s == [] || s[0] == '/' then 0
    else
      var n := UntilSlash(s[1..]);
      assert s[..n + 1] == [s[0]] + s[1..][..n];
      n + 1
  }

  /** Removes the last segment and the slash before it. */
  function DropSegment(output: string): string
  {
    if output == [] then []
    else if output[|output| - 1] == '/' then output[..|output| - 1]
    else DropSegment(output[..|output| - 1])
  }

  function RemoveDotSegments(input: string, output: string): string
    decreases |input|
  {
    if input == "" then output
    else if "../" <= input then RemoveDotSegments(input[3..], output)
    else if "./" <= input then RemoveDotSegments(input[2..], output)
    else if "/./" <= input then RemoveDotSegments(input[2..], output)
    else if input == "/." then RemoveDotSegments("/", output)
    else if "/../" <= input then RemoveDotSegments(input[3..], DropSegment(output))
    else if input == "/.." then RemoveDotSegments("/", DropSegment(output))
    else if input == "." || input == ".." then output
    else
      var end := 1 + UntilSlash(input[1..]);
      RemoveDotSegments(input[end..], output + input[..end])
  }

  predicate Continues(rest: string) { rest == "" || rest[0] == '/' }

  lemma {:induction false} UntilSlashConcat(segment: string, rest: string)
    requires '/' !in segment && Continues(rest)
    ensures UntilSlash(segment + rest) == |segment|
  {
    if segment == "" {
      assert segment + rest == rest;
    } else {
      assert (segment + rest)[0] == segment[0] && (segment + rest)[1..] == segment[1..] + rest;
      UntilSlashConcat(segment[1..], rest);
    }
  }

  /** Only a dot segment looks like one. */
  lemma SingleDotPrefix(segment: string, rest: string)
    requires '/' !in segment && Continues(rest)
    ensures var input := "/" + segment + rest; "/./" <= input || input == "/." ==> segment == "."
  {
    var input := "/" + segment + rest;
    assert forall i | 0 <= i < |segment| :: input[i + 1] == segment[i];
    assert rest != "" ==> input[|segment| + 1] == '/';
    if "/./" <= input || input == "/." {
      assert input[1] == '.' && (|input| > 2 ==> input[2] == '/');
      assert |segment| == 1;
      assert segment == [segment[0]];
    }
  }

  lemma DoubleDotPrefix(segment: string, rest: string)
    requires '/' !in segment && Continues(rest)
    ensures var input := "/" + segment + rest; "/../" <= input || input == "/.." ==> segment == ".."
  {
    var input := "/" + segment + rest;
    assert forall i | 0 <= i < |segment| :: input[i + 1] == segment[i];
    assert rest != "" ==> input[|segment| + 1] == '/';
    if "/../" <= input || input == "/.." {
      assert input[1] == '.' && input[2] == '.' && (|input| > 3 ==> input[3] == '/');
      assert |segment| == 2;
      assert segment == [segment[0], segment[1]];
    }
  }

  lemma MoveSegment(input: string, output: string)
    requires input != "" && input[0] == '/'
    requires !("/./" <= input) && input != "/." && !("/../" <= input) && input != "/.."
    ensures var end := 1 + UntilSlash(input[1..]);
            RemoveDotSegments(input, output) == RemoveDotSegments(input[end..], output + input[..end])
  {
    assert !("../" <= input) && !("./" <= input);
  }

  /** An ordinary segment moves to the output. */
  lemma OrdinaryStep(segment: string, rest: string, output: string)
    requires '/' !in segment && segment != "." && segment != ".." && Continues(rest)
    ensures RemoveDotSegments("/" + segment + rest, output) == RemoveDotSegments(rest, output + "/" + segment)
  {
    hide RemoveDotSegments, UntilSlash;
    var input := "/" + segment + rest;
    SingleDotPrefix(segment, rest);
    DoubleDotPrefix(segment, rest);
    MoveSegment(input, output);
    assert input[1..] == segment + rest;
    UntilSlashConcat(segment, rest);
    var end := 1 + |segment|;
    assert input[..end] == "/" + segment && input[end..] == rest;
    assert output + ("/" + segment) == output + "/" + segment;
  }

  /** A dot segment followed by more path disappears, taking the segment before it with it if double. */
  lemma DottedStep(segment: string, rest: string, output: string)
    requires (segment == "." || segment == "..") && rest != "" && rest[0] == '/'
    ensures RemoveDotSegments("/" + segment + rest, output) ==
            RemoveDotSegments(rest, if segment == "." then output else DropSegment(output))
  {
    var input := "/" + segment + rest;
    if segment == "." {
      assert input == "/." + rest && input[2..] == rest;
      assert input[0] == '/' && input[1] == '.' && input[2] == '/';
      assert !("../" <= input) && !("./" <= input) && "/./" <= input;
    } else {
      assert input == "/.." + rest && input[3..] == rest;
      assert input[0] == '/' && input[1] == '.' && input[2] == '.' && input[3] == '/';
      assert !("../" <= input) && !("./" <= input) && !("/./" <= input) && "/../" <= input;
    }
  }

  lemma {:induction false} SafeSegmentsStay(parts: seq<string>, output: string)
    requires Pieces(parts, '/') && AllSafe(parts)
    ensures RemoveDotSegments("/" + Join(parts, '/'), output) == output + "/" + Join(parts, '/')
  {
    hide RemoveDotSegments, HasControl;
    var head, tail := parts[0], parts[1..];
    if tail == [] {
      OrdinaryStep(head, "", output);
      assert "/" + head + "" == "/" + head;
      NothingLeft(output + "/" + head);
    } else {
      var rest := "/" + Join(tail, '/');
      OrdinaryStep(head, rest, output);
      assert "/" + head + rest == "/" + Join(parts, '/');
      SafeSegmentsStay(tail, output + "/" + head);
      assert (output + "/" + head) + "/" + Join(tail, '/') == output + "/" + Join(parts, '/');
    }
  }

  lemma NothingLeft(output: string)
    ensures RemoveDotSegments("", output) == output
    ensures RemoveDotSegments("/", output) == output + "/"
    ensures RemoveDotSegments(".", output) == output && RemoveDotSegments("..", output) == output
  {
    assert "/"[1..] == "";
    assert UntilSlash("") == 0;
    assert "/"[..1] == "/";
  }

  lemma LeadingDots(segment: string, rest: string)
    requires segment != "" && '/' !in segment && Continues(rest)
    ensures var input := segment + rest;
            && ("./" <= input || input == "." ==> segment == ".")
            && ("../" <= input || input == ".." ==> segment == "..")
  {
    var input := segment + rest;
    assert forall i | 0 <= i < |segment| :: input[i] == segment[i];
    assert rest != "" ==> input[|segment|] == '/';
    if "./" <= input || input == "." {
      assert input[0] == '.' && (|input| > 1 ==> input[1] == '/');
      assert |segment| == 1;
      assert segment == [input[0]];
    }
    if "../" <= input || input == ".." {
      assert input[0] == '.' && input[1] == '.' && (|input| > 2 ==> input[2] == '/');
      assert |segment| == 2;
      assert segment == [input[0], input[1]];
    }
  }

  lemma MoveLeading(input: string, output: string)
    requires input != "" && input[0] != '/'
    requires !("./" <= input) && input != "." && !("../" <= input) && input != ".."
    ensures var end := 1 + UntilSlash(input[1..]);
            RemoveDotSegments(input, output) == RemoveDotSegments(input[end..], output + input[..end])
  {
    assert !("/./" <= input) && input != "/." && !("/../" <= input) && input != "/..";
  }

  /** A leading segment with no slash before it moves to the output as it is. */
  lemma LeadingStep(segment: string, rest: string, output: string)
    requires segment != "" && '/' !in segment && segment != "." && segment != ".." && Continues(rest)
    ensures RemoveDotSegments(segment + rest, output) == RemoveDotSegments(rest, output + segment)
  {
    hide UntilSlash, RemoveDotSegments;
    var input := segment + rest;
    LeadingDots(segment, rest);
    MoveLeading(input, output);
    assert input[1..] == segment[1..] + rest;
    UntilSlashConcat(segment[1..], rest);
    assert input[..|segment|] == segment && input[|segment|..] == rest;
  }

  /** Safe segments with no slash before them are moved to the output unchanged. */
  lemma SafeSegmentsAlone(parts: seq<string>, output: string)
    requires Pieces(parts, '/') && AllSafe(parts)
    ensures RemoveDotSegments(Join(parts, '/'), output) == output + Join(parts, '/')
  {
    hide RemoveDotSegments, HasControl;
    var head, tail := parts[0], parts[1..];
    if tail == [] {
      LeadingStep(head, "", output);
      assert head + "" == head;
      NothingLeft(output + head);
    } else {
      LeadingStep(head, "/" + Join(tail, '/'), output);
      assert Join(parts, '/') == head + ("/" + Join(tail, '/'));
      SafeSegmentsStay(tail, output + head);
      assert output + head + "/" + Join(tail, '/') == output + Join(parts, '/');
    }
  }

  lemma DottedStart(dots: string, rest: string, output: string)
    requires dots == "./" || dots == "../"
    ensures RemoveDotSegments(dots + rest, output) == RemoveDotSegments(rest, output)
  {
    assert (dots + rest)[|dots|..] == rest;
    assert (dots + rest)[0] == dots[0] && (dots + rest)[1] == dots[1];
    if dots == "../" { assert "../" <= dots + rest; } else { assert "./" <= dots + rest; }
  }

  /** Resolving any root, absolute or relative, followed by an accepted key leaves the key as it is,
      after whatever the root alone resolves to. */
  lemma {:induction false} KeyStaysUnderRoot(root: string, key: string, maximumBytes: nat, output: string)
    requires IsValidRelativePath(key, maximumBytes)
    ensures RemoveDotSegments(root + "/" + key, output) == RemoveDotSegments(root + "/", output) + key
    decreases |root|
  {
    hide RemoveDotSegments, IsValidRelativePath, UntilSlash;
    var longer, shorter := root + "/" + key, root + "/";
    if root == "" {
      RelativePathSegments(key, maximumBytes);
      SafeSegmentsStay(Split(key, '/'), output);
      NothingLeft(output);
      assert longer == "/" + key && shorter == "/";
    } else if root[0] == '/' {
      SlashedRoot(root, key, maximumBytes, output);
    } else {
      var end := UntilSlash(root);
      assert end > 0;
      var segment, rest := root[..end], root[end..];
      assert longer == segment + (rest + "/" + key) && shorter == segment + (rest + "/");
      if segment != "." && segment != ".." {
        LeadingStep(segment, rest + "/" + key, output);
        LeadingStep(segment, rest + "/", output);
        KeyStaysUnderRoot(rest, key, maximumBytes, output + segment);
      } else if rest == "" {
        DottedStart(segment + "/", key, output);
        DottedStart(segment + "/", "", output);
        assert longer == (segment + "/") + key && shorter == (segment + "/") + "";
        RelativePathSegments(key, maximumBytes);
        SafeSegmentsAlone(Split(key, '/'), output);
        NothingLeft(output);
      } else {
        DottedStart(segment + "/", rest[1..] + "/" + key, output);
        DottedStart(segment + "/", rest[1..] + "/", output);
        assert rest == "/" + rest[1..];
        assert longer == (segment + "/") + (rest[1..] + "/" + key) && shorter == (segment + "/") + (rest[1..] + "/");
        KeyStaysUnderRoot(rest[1..], key, maximumBytes, output);
      }
    }
  }

  lemma {:induction false} SlashedRoot(root: string, key: string, maximumBytes: nat, output: string)
    requires root != "" && root[0] == '/' && IsValidRelativePath(key, maximumBytes)
    ensures RemoveDotSegments(root + "/" + key, output) == RemoveDotSegments(root + "/", output) + key
    decreases |root|, 0
  {
    hide RemoveDotSegments, IsValidRelativePath, UntilSlash;
    var end := 1 + UntilSlash(root[1..]);
    var segment, rest := root[1..end], root[end..];
    assert segment == root[1..][..end - 1];
    var longer, shorter := rest + "/" + key, rest + "/";
    assert root == "/" + segment + rest;
    assert root + "/" + key == "/" + segment + longer && root + "/" == "/" + segment + shorter;
    var next :=
      if segment == "." then output else if segment == ".." then DropSegment(output) else output + "/" + segment;
    if segment == "." || segment == ".." {
      DottedStep(segment, longer, output);
      DottedStep(segment, shorter, output);
    } else {
      OrdinaryStep(segment, longer, output);
      OrdinaryStep(segment, shorter, output);
    }
    KeyStaysUnderRoot(rest, key, maximumBytes, next);
  }

  /** Under a root without dot or empty segments, absolute or relative, the resolved path is the root, a
      slash and the key. */
  lemma StorageKeyCannotEscape(rootSegments: seq<string>, key: string)
    requires Pieces(rootSegments, '/') && AllSafe(rootSegments) && IsStorageKey(key)
    ensures var root := Join(rootSegments, '/');
            && RemoveDotSegments(root + "/" + key, "") == root + "/" + key
            && RemoveDotSegments("/" + root + "/" + key, "") == "/" + root + "/" + key
  {
    hide RemoveDotSegments, HasControl, IsValidRelativePath;
    var root := Join(rootSegments, '/');
    RelativePathSegments(key, MAXIMUM_STORAGE_KEY);
    var all := rootSegments + Split(key, '/');
    JoinAppend(rootSegments, Split(key, '/'), '/');
    SafeSegmentsStay(all, "");
    SafeSegmentsAlone(all, "");
    assert root + "/" + key == Join(all, '/') && "/" + root + "/" + key == "/" + Join(all, '/');
  }

  lemma {:induction false} JoinAppend(a: seq<string>, b: seq<string>, sep: char)
    requires a != [] && b != []
    ensures Join(a + b, sep) == Join(a, sep) + [sep] + Join(b, sep)
  {
    if |a| == 1 {
      assert (a + b)[1..] == b;
    } else {
      assert (a + b)[1..] == a[1..] + b;
      JoinAppend(a[1..], b, sep);
      assert a[0] + [sep] + (Join(a[1..], sep) + [sep] + Join(b, sep)) ==
             (a[0] + [sep] + Join(a[1..], sep)) + [sep] + Join(b, sep);
    }
  }
}
