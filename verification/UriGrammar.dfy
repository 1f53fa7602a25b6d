/** The grammar of object identifiers, and the parser measured against it. */
module UriGrammar {
  import opened Text
  import opened Utf8
  import opened Utf8Points
  import opened Paths
  import opened PathTexts
  import opened Percent
  import opened Decimal
  import opened BlobyardUri
  import opened UriTheorems
  import opened UriEscapes

  // ----- paths

  /** Every piece spells the segment in its place. */
  ghost predicate SpelledBy(written: seq<string>, segments: seq<string>)
  {
    |written| == |segments| && forall i | 0 <= i < |written| :: Spells(written[i], segments[i])
  }

  /** The encoded text spells the path, segment by segment. */
  ghost predicate SpellsPath(encoded: string, path: string)
  {
    exists written, segments ::
      encoded == Join(written, '/') && SpelledBy(written, segments) && PathOf(path, segments)
  }

  lemma {:induction false} SpelledSlash(text: string, bytes: string)
    requires Spells(text, bytes) && '/' !in bytes
    ensures '/' !in text
    decreases |bytes|
  {
    hide HexValue, EscapeOf;
    if bytes != [] {
      if text != [] && text[0] == bytes[0] && text[0] != '%' && Spells(text[1..], bytes[1..]) {
        SpelledSlash(text[1..], bytes[1..]);
      } else {
        EscapeExact(text, bytes[0]);
        SpelledSlash(text[3..], bytes[1..]);
        assert text == [text[0], text[1], text[2]] + text[3..];
      }
    }
  }

  lemma SegmentDecodes(text: string, segment: string)
    requires WellEscaped(text)
    ensures DecodeSegment(text) == Ok(segment) <==> Spells(text, segment) && SegmentText(segment)
  {
    hide WellEscaped, Decode, Spells, ValidUtf8, HasControl, SegmentText;
    SpellsExact(text, segment);
    SegmentExact(segment);
  }

  lemma {:induction false} SegmentsDecode(written: seq<string>, segments: seq<string>)
    requires forall i | 0 <= i < |written| :: WellEscaped(written[i])
    ensures DecodeSegments(written) == Ok(segments) <==>
              SpelledBy(written, segments) && forall i | 0 <= i < |segments| :: SegmentText(segments[i])
  {
    hide WellEscaped, DecodeSegment, Spells, SegmentText;
    if written == [] {
    } else if segments != [] {
      var rest := segments[1..];
      SegmentDecodes(written[0], segments[0]);
      SegmentsDecode(written[1..], rest);
      assert segments == [segments[0]] + rest;
      if |written| == |segments| {
        assert forall i | 0 <= i < |rest| :: rest[i] == segments[i + 1] && written[1..][i] == written[i + 1];
        assert forall i | 1 <= i < |segments| :: segments[i] == rest[i - 1] && written[i] == written[1..][i - 1];
      }
    }
  }

  lemma SpelledPieces(written: seq<string>, segments: seq<string>)
    requires SpelledBy(written, segments) && SegmentTexts(segments)
    ensures Pieces(written, '/') && forall i | 0 <= i < |written| :: WellEscaped(written[i])
  {
    hide WellEscaped, Decode, Spells, SegmentText;
    forall i | 0 <= i < |written| ensures '/' !in written[i] && WellEscaped(written[i]) {
      SegmentExact(segments[i]);
      SpelledSlash(written[i], segments[i]);
      SpellsExact(written[i], segments[i]);
    }
  }

  /** A path is decoded exactly from the texts that spell it and only within 2048 bytes. */
  lemma DecodePathSpelled(encoded: string, path: string)
    ensures DecodePath(encoded) == Ok(path) <==> SpellsPath(encoded, path) && |path| <= 2048
  {
    hide WellEscaped, Split, Join, DecodeSegments, ValidateDecodedPath, ValidUtf8, Spells, SegmentText;
    var pieces := Split(encoded, '/');
    JoinSplit(encoded, '/');
    EscapesStayInSegments(encoded);
    if DecodePath(encoded) == Ok(path) {
      var segments := DecodeSegments(pieces).value;
      SegmentsDecode(pieces, segments);
      DecodePathExact(encoded);
      assert PathOf(path, segments);
    }
    if SpellsPath(encoded, path) && |path| <= 2048 {
      var written, segments :|
        encoded == Join(written, '/') && SpelledBy(written, segments) && PathOf(path, segments);
      SpelledPieces(written, segments);
      SplitJoin(written, '/');
      SegmentsDecode(written, segments);
      DecodePathExact(encoded);
    }
  }

  lemma {:induction false} FirstWrongSegment(written: seq<string>, bytes: seq<string>, k: nat)
    requires SpelledBy(written, bytes) && k < |bytes| && !SegmentText(bytes[k])
    requires forall i | 0 <= i < k :: SegmentText(bytes[i])
    ensures DecodeSegments(written) == Err(if ValidUtf8(bytes[k]) then InvalidPath else InvalidPercentEncoding)
  {
    hide WellEscaped, Decode, Spells, ValidUtf8, HasControl, SegmentText;
    SpellsExact(written[0], bytes[0]);
    SegmentExact(bytes[0]);
    if k > 0 { FirstWrongSegment(written[1..], bytes[1..], k - 1); }
  }

  /** A piece with a broken escape, wherever it stands, makes the encoding invalid. */
  lemma BrokenEscape(written: seq<string>, k: nat)
    requires Pieces(written, '/') && k < |written| && forall text :: !Spells(written[k], text)
    ensures DecodePath(Join(written, '/')) == Err(InvalidPercentEncoding)
  {
    hide WellEscaped, Decode, Spells, Split, Join, DecodeSegments, ValidateDecodedPath;
    SplitJoin(written, '/');
    EscapesStayInSegments(Join(written, '/'));
    SpellsExact(written[k], Decode(written[k]));
  }

  lemma SpelledEscapes(written: seq<string>, bytes: seq<string>)
    requires Pieces(written, '/') && SpelledBy(written, bytes)
    ensures WellEscaped(Join(written, '/')) && Split(Join(written, '/'), '/') == written
  {
    hide WellEscaped, Decode, Spells, Split, Join;
    SplitJoin(written, '/');
    forall i | 0 <= i < |written| ensures WellEscaped(written[i]) { SpellsExact(written[i], bytes[i]); }
    EscapesStayInSegments(Join(written, '/'));
  }

  /** When every escape is sound, the first piece that spells no segment decides: its encoding is invalid
      when its bytes are not text, and the path is unsafe otherwise. */
  lemma WrongSegment(written: seq<string>, bytes: seq<string>, k: nat)
    requires Pieces(written, '/') && SpelledBy(written, bytes) && k < |bytes| && !SegmentText(bytes[k])
    requires forall i | 0 <= i < k :: SegmentText(bytes[i])
    ensures DecodePath(Join(written, '/')) ==
            Err(if exists points :: Scalars(points) && bytes[k] == EncodeText(points) then InvalidPath
                else InvalidPercentEncoding)
  {
    hide WellEscaped, Decode, Spells, ValidUtf8, SegmentText, Split, Join, DecodeSegments, ValidateDecodedPath;
    SpelledEscapes(written, bytes);
    FirstWrongSegment(written, bytes, k);
    Utf8Exact(bytes[k]);
  }

  /** When every piece spells a segment, only the length is left to refuse. */
  lemma LongPath(written: seq<string>, segments: seq<string>)
    requires SpelledBy(written, segments) && SegmentTexts(segments) && |Join(segments, '/')| > 2048
    ensures DecodePath(Join(written, '/')) == Err(TooLong)
  {
    hide WellEscaped, Decode, Spells, SegmentText, Split, Join, DecodeSegments, ValidateDecodedPath, ValidUtf8;
    SpelledPieces(written, segments);
    SpelledEscapes(written, segments);
    SegmentsDecode(written, segments);
    DecodePathExact(Join(written, '/'));
  }

  // ----- slugs

  ghost predicate SlugChar(c: char)
  {
    '0' <= c <= '9' || 'a' <= c <= 'z' || 'A' <= c <= 'Z'
  }

  /** Letters and digits at both ends, hyphens and underscores between them, 63 bytes at most. */
  ghost predicate SlugText(s: string)
  {
    && 1 <= |s| <= 63 && SlugChar(s[0]) && SlugChar(s[|s| - 1])
    && forall i | 0 <= i < |s| :: SlugChar(s[i]) || s[i] == '-' || s[i] == '_'
  }

  lemma SlugExact(s: string)
    ensures ValidSlug(s) <==> SlugText(s)
  {
  }

  // ----- versions

  function Zeros(k: nat): (s: string)
    ensures |s| == k && forall i | 0 <= i < k :: s[i] == '0'
  {
    seq(k, _ => '0')
  }

  lemma {:induction false} ZeroValue(s: string)
    requires AllDigits(s)
    ensures DecimalValue(s) == 0 <==> s == Zeros(|s|)
  {
    if s != [] {
      var init := s[..|s| - 1];
      ZeroValue(init);
      assert s == init + [s[|s| - 1]];
      assert Zeros(|s|) == Zeros(|s| - 1) + ['0'];
    }
  }

  lemma {:induction false} PaddedValue(k: nat, n: nat)
    ensures AllDigits(Zeros(k) + DecimalText(n)) && DecimalValue(Zeros(k) + DecimalText(n)) == n
  {
    DecimalDigits(n);
    var s := Zeros(k) + DecimalText(n);
    if n < 10 {
      assert s[..|s| - 1] == Zeros(k);
      ZeroValue(Zeros(k));
    } else {
      PaddedValue(k, n / 10);
      assert s[..|s| - 1] == Zeros(k) + DecimalText(n / 10);
    }
  }

  /** The digits of a positive number are its decimal text after any number of zeros. */
  lemma {:induction false} ValuePadded(s: string) returns (k: nat)
    requires AllDigits(s) && DecimalValue(s) > 0
    ensures s == Zeros(k) + DecimalText(DecimalValue(s))
  {
    var init, last := s[..|s| - 1], s[|s| - 1];
    assert s == init + [last];
    if DecimalValue(init) > 0 {
      k := ValuePadded(init);
      assert Zeros(k) + DecimalText(DecimalValue(init)) + [last] ==
             Zeros(k) + (DecimalText(DecimalValue(init)) + [last]);
    } else {
      ZeroValue(init);
      k := |init|;
    }
  }

  /** A selector is an optional plus sign, any number of zeros and the decimal text of a positive
      64-bit number. */
  ghost predicate SelectorOf(raw: string, n: nat)
  {
    0 < n < 0x1_0000_0000_0000_0000
    && exists sign, k: nat :: (sign == "" || sign == "+") && raw == sign + (Zeros(k) + DecimalText(n))
  }

  lemma SelectorParsed(raw: string, n: nat)
    requires SelectorOf(raw, n)
    ensures ParseU64(raw) == Some(n) && raw != "" && '&' !in raw
  {
    hide DecimalText, DecimalValue;
    var sign, k: nat :| (sign == "" || sign == "+") && raw == sign + (Zeros(k) + DecimalText(n));
    PaddedValue(k, n);
    DecimalDigits(n);
    var digits := Zeros(k) + DecimalText(n);
    assert IsDigit(digits[0]);
    if sign == "" { assert raw == digits; } else { assert raw[1..] == digits; }
  }

  lemma SelectorExact(raw: string, n: nat)
    ensures n > 0 && ParseU64(raw) == Some(n) && '&' !in raw <==> SelectorOf(raw, n)
  {
    hide DecimalText, DecimalValue;
    if SelectorOf(raw, n) { SelectorParsed(raw, n); }
    if n > 0 && ParseU64(raw) == Some(n) {
      var sign := if raw[0] == '+' then "+" else "";
      var digits := raw[|sign|..];
      var k := ValuePadded(digits);
      assert raw == sign + digits;
    }
  }

  ghost predicate VersionOf(query: Option<string>, version: Option<nat>)
  {
    match query
    case None => version == None
    case Some(text) => version.Some? && exists raw :: text == "version=" + raw && SelectorOf(raw, version.value)
  }

  lemma VersionExact(query: Option<string>, version: Option<nat>)
    ensures ParseVersion(query) == Ok(version) <==> VersionOf(query, version)
    ensures ParseVersion(query).Err? ==> ParseVersion(query) == Err(InvalidVersion)
  {
    hide ParseU64, SelectorOf;
    if query.Some? && ParseVersion(query).Ok? {
      var raw := StripPrefix(query.value, VERSION_KEY).value;
      assert query.value == "version=" + raw;
      SelectorExact(raw, ParseVersion(query).value.value);
    }
    if query.Some? && VersionOf(query, version) {
      var raw :| query.value == "version=" + raw && SelectorOf(raw, version.value);
      SelectorExact(raw, version.value);
      SelectorParsed(raw, version.value);
      StripPrefixConcat(VERSION_KEY, raw);
    }
  }

  // ----- identifiers

  /** The parts of an identifier in the order they are written. */
  function Written(workspace: string, project: string, encoded: string, query: Option<string>): string
  {
    "blobyard://" +
    (workspace + "/" + project + "/" + encoded + match query case None => "" case Some(text) => "?" + text)
  }

  /** The text has the delimiters of an identifier and nonempty parts between them. */
  ghost predicate Laid(input: string, workspace: string, project: string, encoded: string, query: Option<string>)
  {
    && input == Written(workspace, project, encoded, query)
    && workspace != "" && project != "" && encoded != "" && '/' !in workspace && '/' !in project
    && Plain(workspace) && Plain(project) && Plain(encoded) && (query.Some? ==> Plain(query.value))
  }

  lemma LaidParses(input: string, workspace: string, project: string, encoded: string, query: Option<string>)
    requires Laid(input, workspace, project, encoded, query)
    ensures var location := workspace + "/" + project + "/" + encoded;
            && SplitLocation(location) == Ok((workspace, project, encoded))
            && ParseBounded(input) == ParseLocated(location, query)
  {
    hide SplitLocation, ParseLocated;
    var location := workspace + "/" + project + "/" + encoded;
    LocationSplits(workspace, project, encoded);
    assert Plain(location);
    match query {
      case None =>
        assert location + "" == location;
        BareLocationParses(location);
      case Some(text) =>
        QueryCut(location, text);
        assert location + ("?" + text) == location + "?" + text;
        StripPrefixConcat(SCHEME, location + "?" + text);
    }
  }

  lemma LocationParts(location: string)
    requires SplitLocation(location).Ok?
    ensures var (workspace, project, encoded) := SplitLocation(location).value;
            && location == workspace + "/" + project + "/" + encoded
            && workspace != "" && project != "" && encoded != "" && '/' !in workspace && '/' !in project
  {
    hide SplitOnce;
    var (workspace, remainder) := SplitOnce(location, '/').value;
    var (project, encoded) := SplitOnce(remainder, '/').value;
    assert workspace + "/" + (project + "/" + encoded) == workspace + "/" + project + "/" + encoded;
  }

  lemma QueryParts(body: string)
    requires '#' !in body && SplitQuery(body).Ok?
    ensures var (location, query) := SplitQuery(body).value;
            && Plain(location) && (query.Some? ==> Plain(query.value))
            && body == location + match query case None => "" case Some(text) => "?" + text
  {
    hide SplitOnce;
    match SplitOnce(body, '?') {
      case None =>
        assert body + "" == body;
      case Some((location, query)) =>
        assert body == location + ("?" + query);
        assert forall c | c in location :: c in body;
        assert forall c | c in query :: c in body;
    }
  }

  lemma ParsedIsLaid(input: string)
    requires ParseBounded(input) != Err(InvalidScheme) && ParseBounded(input) != Err(InvalidStructure)
    ensures exists workspace, project, encoded, query :: Laid(input, workspace, project, encoded, query)
  {
    hide SplitQuery, SplitLocation, ValidSlug, DecodePath, ParseVersion;
    var body := StripPrefix(input, SCHEME).value;
    QueryErrors(body);
    var (location, query) := SplitQuery(body).value;
    LocationErrors(location);
    LocationParts(location);
    QueryParts(body);
    var (workspace, project, encoded) := SplitLocation(location).value;
    PlainParts(workspace, project, encoded);
    assert Laid(input, workspace, project, encoded, query);
  }

  lemma PlainParts(workspace: string, project: string, encoded: string)
    requires Plain(workspace + "/" + project + "/" + encoded)
    ensures Plain(workspace) && Plain(project) && Plain(encoded)
  {
    var s := workspace + "/" + project + "/" + encoded;
    assert forall i | 0 <= i < |workspace| :: s[i] == workspace[i];
    assert forall i | 0 <= i < |project| :: s[|workspace| + 1 + i] == project[i];
    assert forall i | 0 <= i < |encoded| :: s[|workspace| + |project| + 2 + i] == encoded[i];
  }

  lemma QueryErrors(body: string)
    ensures SplitQuery(body).Err? ==> SplitQuery(body) == Err(InvalidStructure)
  {
  }

  lemma LocationErrors(location: string)
    ensures SplitLocation(location).Err? ==> SplitLocation(location) == Err(InvalidStructure)
  {
  }

  /** A text that is short enough is refused for its scheme exactly when it does not start with it, and
      for its structure exactly when its delimiters do not lay out an identifier. */
  lemma StructureExact(input: string)
    requires |input| <= 4096
    ensures Parse(input) == Err(InvalidScheme) <==> !("blobyard://" <= input)
    ensures Parse(input) == Err(InvalidStructure) <==>
              && "blobyard://" <= input
              && !exists workspace, project, encoded, query :: Laid(input, workspace, project, encoded, query)
  {
    hide ParseBounded;
    SchemeExact(input);
    if ParseBounded(input) != Err(InvalidScheme) && ParseBounded(input) != Err(InvalidStructure) {
      ParsedIsLaid(input);
    }
    if workspace, project, encoded, query :| Laid(input, workspace, project, encoded, query) {
      LaidDecides(input, workspace, project, encoded, query);
    }
  }

  lemma SchemeExact(input: string)
    ensures ParseBounded(input) == Err(InvalidScheme) <==> !("blobyard://" <= input)
  {
    hide ParseLocated, SplitQuery;
    match StripPrefix(input, SCHEME) {
      case None =>
      case Some(body) =>
        QueryErrors(body);
        if SplitQuery(body).Ok? { LocatedErrors(SplitQuery(body).value.0, SplitQuery(body).value.1); }
    }
  }

  lemma LocatedErrors(location: string, query: Option<string>)
    ensures ParseLocated(location, query) != Err(InvalidScheme)
  {
    hide SplitLocation, ValidSlug, DecodePath, ParseVersion;
    LocationErrors(location);
    VersionExact(query, None);
    if SplitLocation(location).Ok? { PathErrors(SplitLocation(location).value.2); }
  }

  lemma {:induction false} SegmentErrors(segments: seq<string>)
    ensures DecodeSegments(segments).Err? ==>
              DecodeSegments(segments).error == InvalidPercentEncoding || DecodeSegments(segments).error == InvalidPath
  {
    hide Decode, ValidUtf8, HasControl;
    if segments != [] { SegmentErrors(segments[1..]); }
  }

  lemma PathErrors(encoded: string)
    ensures DecodePath(encoded).Err? ==> DecodePath(encoded).error in {InvalidPercentEncoding, InvalidPath, TooLong}
  {
    hide DecodeSegments, Split, Join, WellEscaped, ValidateDecodedPath;
    SegmentErrors(Split(encoded, '/'));
  }

  /** Once laid out, the first of the workspace, the project, the path and the version that is wrong
      decides the error. */
  lemma LaidDecides(input: string, workspace: string, project: string, encoded: string, query: Option<string>)
    requires Laid(input, workspace, project, encoded, query) && |input| <= 4096
    ensures Parse(input) == Err(InvalidWorkspace) <==> !SlugText(workspace)
    ensures Parse(input) == Err(InvalidProject) <==> SlugText(workspace) && !SlugText(project)
    ensures SlugText(workspace) && SlugText(project) && DecodePath(encoded).Err? ==>
              Parse(input) == Err(DecodePath(encoded).error)
    ensures Parse(input) == Err(InvalidVersion) <==>
              && SlugText(workspace) && SlugText(project) && DecodePath(encoded).Ok?
              && forall version :: !VersionOf(query, version)
    ensures Parse(input) != Err(InvalidStructure) && Parse(input) != Err(InvalidScheme)
  {
    hide ParseBounded, ValidSlug, SlugText, DecodePath, ParseVersion, VersionOf, SplitLocation, Laid;
    LaidParses(input, workspace, project, encoded, query);
    SlugExact(workspace);
    SlugExact(project);
    PathErrors(encoded);
    forall version
      ensures ParseVersion(query) == Ok(version) <==> VersionOf(query, version)
      ensures ParseVersion(query).Err? ==> ParseVersion(query) == Err(InvalidVersion)
    {
      VersionExact(query, version);
    }
    assert ParseVersion(query).Err? ==> ParseVersion(query) == Err(InvalidVersion) by { VersionExact(query, None); }
  }

  /** The identifier a text is laid out as. */
  ghost predicate Denotes(input: string, u: Uri, encoded: string, query: Option<string>)
  {
    && input == Written(u.workspace, u.project, encoded, query)
    && SlugText(u.workspace) && SlugText(u.project)
    && Plain(encoded) && SpellsPath(encoded, u.path) && |u.path| <= 2048
    && VersionOf(query, u.version)
  }

  /** The parser accepts exactly the texts of the grammar, with the parts they are written from. */
  lemma ParseExact(input: string, u: Uri)
    ensures Parse(input) == Ok(u) <==> |input| <= 4096 && exists encoded, query :: Denotes(input, u, encoded, query)
    ensures |input| > 4096 ==> Parse(input) == Err(TooLong)
  {
    hide ParseBounded, ValidSlug, SlugText, DecodePath, ParseVersion, VersionOf, SplitLocation, SpellsPath, Written;
    if Parse(input) == Ok(u) {
      ParsedIsLaid(input);
      var workspace, project, encoded, query :| Laid(input, workspace, project, encoded, query);
      LaidParses(input, workspace, project, encoded, query);
      SlugExact(workspace);
      SlugExact(project);
      DecodePathSpelled(encoded, u.path);
      VersionExact(query, u.version);
      assert Denotes(input, u, encoded, query);
    }
    if |input| <= 4096 {
      if encoded, query :| Denotes(input, u, encoded, query) {
        DenotedIsLaid(input, u, encoded, query);
        LaidParses(input, u.workspace, u.project, encoded, query);
        SlugExact(u.workspace);
        SlugExact(u.project);
        DecodePathSpelled(encoded, u.path);
        VersionExact(query, u.version);
      }
    }
  }

  lemma DenotedIsLaid(input: string, u: Uri, encoded: string, query: Option<string>)
    requires Denotes(input, u, encoded, query)
    ensures Laid(input, u.workspace, u.project, encoded, query)
  {
    hide SpellsPath, Written, SelectorOf, DecodePath;
    SlugExact(u.workspace);
    SlugExact(u.project);
    SlugShape(u.workspace);
    SlugShape(u.project);
    DecodePathSpelled(encoded, u.path);
    if encoded == "" { EmptyDoesNotDecode(); }
    if query.Some? {
      var raw :| query.value == "version=" + raw && SelectorOf(raw, u.version.value);
      SelectorPlain(raw, u.version.value);
      assert Plain("version=");
    }
  }

  lemma SelectorPlain(raw: string, n: nat)
    requires SelectorOf(raw, n)
    ensures Plain(raw)
  {
    hide DecimalText;
    var sign, k: nat :| (sign == "" || sign == "+") && raw == sign + (Zeros(k) + DecimalText(n));
    DecimalDigits(n);
  }

  // ----- printing and construction

  /** A byte is printed as itself when it is a letter, a digit or one of `-._~`, and otherwise as a percent
      sign and two capital digits. */
  lemma EncodedByte(c: char)
    requires c as int < 256
    ensures EncodeByte(c) ==
            if SlugChar(c) || c in "-._~" then [c]
            else ['%', "0123456789ABCDEF"[c as int / 16], "0123456789ABCDEF"[c as int % 16]]
  {
    hide HexDigit, MustEncode, HexValue;
    EncodeSetIsComplement(c);
    CapitalDigit(c as int / 16);
    CapitalDigit(c as int % 16);
  }

  lemma CapitalDigit(value: nat)
    requires value < 16
    ensures HexDigit(value) == "0123456789ABCDEF"[value]
  {
  }

  /** What is printed is laid out like what is parsed. */
  lemma PrintExact(u: Uri)
    ensures Print(u) == Written(u.workspace, u.project, EncodedPath(u.path),
                                match u.version case None => None case Some(n) => Some("version=" + DecimalText(n)))
  {
    hide EncodedPath, Print, DecimalText;
    PrintedShape(u);
    match u.version {
      case None =>
      case Some(n) => assert "?version=" + DecimalText(n) == "?" + ("version=" + DecimalText(n));
    }
  }

  /** Construction refuses a path of more than 2048 bytes and a printed form of more than 4096 as too
      long, and a text that is not a path as unsafe. */
  lemma NewExact(workspace: string, project: string, path: string, version: Option<nat>)
    requires ValidUtf8(path)
    ensures var u := Uri(workspace, project, path, version);
            New(workspace, project, path, version) ==
            if |path| > 2048 then Err(TooLong)
            else if !(exists parts :: PathOf(path, parts)) then Err(InvalidPath)
            else if |Print(u)| > 4096 then Err(TooLong)
            else Ok(u)
  {
    hide Print, ValidUtf8, ValidateDecodedPath, PathOf;
    LogicalPathExact(path);
  }
}
