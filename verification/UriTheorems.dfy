/** Round trips and exact length conditions of object identifiers. */
module UriTheorems {
  import opened Text
  import opened Utf8
  import opened Paths
  import opened Percent
  import opened Decimal
  import opened BlobyardUri

  /** What every identifier holds, however it was obtained. */
  predicate ValidUri(u: Uri)
  {
    && ValidSlug(u.workspace) && ValidSlug(u.project)
    && ValidUtf8(u.path) && ValidateDecodedPath(u.path) == Fine
    && ValidVersion(u.version)
  }

  // ----- the path

  function EncodeAll(segments: seq<string>): (r: seq<string>)
    ensures |r| == |segments|
    ensures forall i | 0 <= i < |r| :: r[i] == Encode(segments[i])
  {
    seq(|segments|, i requires 0 <= i < |segments| => Encode(segments[i]))
  }

  lemma {:induction false} PrintedSegments(segments: seq<string>)
    requires segments != []
    ensures PrintSegments(segments) == "/" + Join(EncodeAll(segments), '/')
  {
    hide Encode;
    var first, rest := Encode(segments[0]), segments[1..];
    if rest == [] {
      assert PrintSegments(rest) == "";
      assert EncodeAll(segments) == [first];
    } else {
      PrintedSegments(rest);
      assert EncodeAll(segments)[1..] == EncodeAll(rest);
      assert "/" + first + ("/" + Join(EncodeAll(rest), '/')) == "/" + (first + "/" + Join(EncodeAll(rest), '/'));
    }
  }

  /** No query or fragment delimiter. */
  predicate Plain(s: string)
  {
    forall i | 0 <= i < |s| :: s[i] != '?' && s[i] != '#'
  }

  lemma EncodedSegment(segment: string)
    ensures '/' !in Encode(segment) && Plain(Encode(segment)) && WellEscaped(Encode(segment))
  {
    EncodedChars(segment);
    EncodedEscaped(segment);
  }

  lemma {:induction false} PlainJoin(parts: seq<string>)
    requires parts != [] && forall i | 0 <= i < |parts| :: Plain(parts[i])
    ensures Plain(Join(parts, '/'))
  {
    if |parts| > 1 { PlainJoin(parts[1..]); }
  }

  lemma SegmentRoundTrip(segment: string)
    requires SafeSegment(segment) && '/' !in segment && ValidUtf8(segment)
    ensures DecodeSegment(Encode(segment)) == Ok(segment)
  {
    hide HasControl;
    Utf8Bytes(segment);
    DecodeEncode(segment);
  }

  lemma {:induction false} SegmentsRoundTrip(segments: seq<string>)
    requires AllSafe(segments) && forall i | 0 <= i < |segments| :: '/' !in segments[i] && ValidUtf8(segments[i])
    ensures DecodeSegments(EncodeAll(segments)) == Ok(segments)
  {
    hide DecodeSegment, SafeSegment, ValidUtf8, Encode;
    var encoded := EncodeAll(segments);
    if segments != [] {
      SegmentRoundTrip(segments[0]);
      SegmentsRoundTrip(segments[1..]);
      assert encoded[1..] == EncodeAll(segments[1..]);
      assert segments == [segments[0]] + segments[1..];
    }
  }

  lemma PathPieces(path: string)
    requires ValidateDecodedPath(path) == Fine && ValidUtf8(path)
    ensures var segments := Split(path, '/');
            && Pieces(segments, '/') && AllSafe(segments) && Join(segments, '/') == path
            && forall i | 0 <= i < |segments| :: ValidUtf8(segments[i])
  {
    hide ValidUtf8, Split, Join, SafeSegment;
    SplitPieces(path, '/');
    JoinSplit(path, '/');
    Utf8Join(Split(path, '/'), '/');
  }

  /** The encoded path of an identifier, as it stands after the project. */
  function EncodedPath(path: string): string
  {
    Join(EncodeAll(Split(path, '/')), '/')
  }

  lemma EncodedPathShape(path: string)
    ensures Plain(EncodedPath(path)) && WellEscaped(EncodedPath(path))
    ensures Split(EncodedPath(path), '/') == EncodeAll(Split(path, '/'))
  {
    hide Encode, Join, Split, WellEscaped, Plain;
    var encoded := EncodeAll(Split(path, '/'));
    forall i | 0 <= i < |encoded|
      ensures '/' !in encoded[i] && Plain(encoded[i]) && WellEscaped(encoded[i])
    {
      EncodedSegment(Split(path, '/')[i]);
    }
    PlainJoin(encoded);
    EscapedJoin(encoded, '/');
    SplitJoin(encoded, '/');
  }

  lemma PathRoundTrip(path: string)
    requires ValidateDecodedPath(path) == Fine && ValidUtf8(path)
    ensures DecodePath(EncodedPath(path)) == Ok(path)
    ensures EncodedPath(path) != ""
  {
    hide ValidUtf8, Split, Join, SafeSegment, WellEscaped, ValidateDecodedPath, DecodeSegment, Encode;
    PathPieces(path);
    EncodedPathShape(path);
    SegmentsRoundTrip(Split(path, '/'));
    if EncodedPath(path) == "" { EmptyDoesNotDecode(); }
  }

  lemma EmptyDoesNotDecode()
    ensures DecodePath("") == Err(InvalidPath)
  {
    var empty: string := "";
    assert Split(empty, '/') == [empty];
    assert DecodeSegment(empty) == Err(InvalidPath);
  }

  // ----- the version

  lemma VersionRoundTrip(n: nat)
    requires 0 < n < U64_LIMIT
    ensures ParseVersion(Some(VERSION_KEY + DecimalText(n))) == Ok(Some(n))
    ensures Plain(VERSION_KEY + DecimalText(n))
  {
    hide DecimalText, ParseU64;
    DecimalDigits(n);
    ParseDecimal(n);
    StripPrefixConcat(VERSION_KEY, DecimalText(n));
    var text := VERSION_KEY + DecimalText(n);
    assert '&' !in DecimalText(n);
    assert Plain(VERSION_KEY);
  }

  // ----- the whole identifier

  function Location(u: Uri): string
  {
    u.workspace + "/" + u.project + "/" + EncodedPath(u.path)
  }

  lemma PrintedShape(u: Uri)
    ensures Print(u) == SCHEME + (Location(u) + PrintVersion(u.version))
  {
    hide Encode, Join, Split, PrintVersion, EncodeAll, PrintSegments;
    PrintedSegments(Split(u.path, '/'));
    assert Split(u.path, '/') != [];
    var path, version := EncodedPath(u.path), PrintVersion(u.version);
    assert SCHEME + u.workspace + "/" + u.project + ("/" + path) + version ==
           SCHEME + (u.workspace + "/" + u.project + "/" + path + version);
  }

  lemma LocationSplits(workspace: string, project: string, path: string)
    requires '/' !in workspace && '/' !in project && workspace != "" && project != "" && path != ""
    ensures SplitLocation(workspace + "/" + project + "/" + path) == Ok((workspace, project, path))
  {
    hide SplitOnce;
    assert workspace + "/" + project + "/" + path == workspace + "/" + (project + "/" + path);
    SplitOnceConcat(workspace, '/', project + "/" + path);
    SplitOnceConcat(project, '/', path);
  }

  lemma SlugShape(slug: string)
    requires ValidSlug(slug)
    ensures '/' !in slug && slug != "" && Plain(slug)
  {
  }

  lemma LocationParses(u: Uri, query: Option<string>)
    requires ValidUri(u) && ParseVersion(query) == Ok(u.version)
    ensures ParseLocated(Location(u), query) == Ok(u)
  {
    hide ValidUtf8, ParseVersion, DecodePath, EncodedPath, ValidateDecodedPath, SplitLocation, ValidSlug;
    PathRoundTrip(u.path);
    SlugShape(u.workspace);
    SlugShape(u.project);
    LocationSplits(u.workspace, u.project, EncodedPath(u.path));
  }

  lemma QueryCut(location: string, query: string)
    requires Plain(location) && Plain(query)
    ensures SplitQuery(location + "?" + query) == Ok((location, Some(query)))
    ensures '#' !in location + "?" + query
  {
    hide SplitOnce;
    SplitOnceConcat(location, '?', query);
  }

  lemma QuerySplits(location: string, version: Option<nat>)
    requires Plain(location) && ValidVersion(version)
    ensures var body := location + PrintVersion(version);
            && '#' !in body
            && SplitQuery(body).Ok? && SplitQuery(body).value.0 == location
            && ParseVersion(SplitQuery(body).value.1) == Ok(version)
  {
    hide DecimalText, ParseVersion, Plain;
    match version {
      case None =>
        assert location + "" == location;
        BareQuery(location);
        NoVersion();
      case Some(n) =>
        hide SplitQuery;
        VersionRoundTrip(n);
        var query := VERSION_KEY + DecimalText(n);
        assert "?version=" == "?" + VERSION_KEY;
        assert location + ("?version=" + DecimalText(n)) == location + "?" + query;
        QueryCut(location, query);
    }
  }

  lemma BareQuery(location: string)
    requires Plain(location)
    ensures SplitQuery(location) == Ok((location, None)) && '#' !in location
  {
  }

  lemma NoVersion()
    ensures ParseVersion(None) == Ok(None)
  {
  }

  /** Printing loses nothing, whatever the length. */
  lemma PrintedParses(u: Uri)
    requires ValidUri(u)
    ensures ParseBounded(Print(u)) == Ok(u)
  {
    hide ValidSlug, ValidUtf8, ValidateDecodedPath, Print, Location, PrintVersion, ParseLocated, ParseVersion,
      SplitQuery;
    PrintedShape(u);
    assert Plain(Location(u)) by { LocationPlain(u); }
    QuerySplits(Location(u), u.version);
    var body := Location(u) + PrintVersion(u.version);
    LocationParses(u, SplitQuery(body).value.1);
    StripPrefixConcat(SCHEME, body);
  }

  lemma LocationPlain(u: Uri)
    requires ValidUri(u)
    ensures Plain(Location(u))
  {
    hide EncodedPath, ValidUtf8, ValidateDecodedPath, ValidSlug;
    SlugShape(u.workspace);
    SlugShape(u.project);
    EncodedPathShape(u.path);
  }

  /** Parsing the printed text returns the identifier exactly when that text is within 4096 bytes;
      otherwise it is refused as too long. */
  lemma RoundTrip(u: Uri)
    requires ValidUri(u)
    ensures Parse(Print(u)) == if |Print(u)| <= MAXIMUM_URI then Ok(u) else Err(TooLong)
  {
    hide Print, ParseBounded;
    PrintedParses(u);
  }

  /** Two identifiers with the same text are the same identifier. */
  lemma PrintInjective(u: Uri, v: Uri)
    requires ValidUri(u) && ValidUri(v) && Print(u) == Print(v)
    ensures u == v
  {
    hide Print, ParseBounded;
    PrintedParses(u);
    PrintedParses(v);
  }

  /** Whatever `new` accepts comes back from its printed text. */
  lemma NewRoundTrips(workspace: string, project: string, path: string, version: Option<nat>)
    requires ValidSlug(workspace) && ValidSlug(project) && ValidUtf8(path) && ValidVersion(version)
    requires New(workspace, project, path, version).Ok?
    ensures Parse(Print(New(workspace, project, path, version).value)) == Ok(Uri(workspace, project, path, version))
  {
    hide Print, Parse;
    RoundTrip(Uri(workspace, project, path, version));
  }

  // ----- parsed identifiers

  lemma {:induction false} DecodedSegments(segments: seq<string>)
    requires DecodeSegments(segments).Ok?
    ensures var decoded := DecodeSegments(segments).value;
            && |decoded| == |segments| && AllSafe(decoded)
            && forall i | 0 <= i < |decoded| :: '/' !in decoded[i] && ValidUtf8(decoded[i])
  {
    hide ValidUtf8, HasControl, Decode;
    if segments != [] { DecodedSegments(segments[1..]); }
  }

  lemma JoinedIsSafe(segments: seq<string>)
    requires Pieces(segments, '/') && AllSafe(segments)
    ensures ValidateDecodedPath(Join(segments, '/')) ==
            if |Join(segments, '/')| > MAXIMUM_LOGICAL_PATH then Oversized else Fine
  {
    hide SafeSegment, Split, Join;
    SplitJoin(segments, '/');
  }

  /** Once every segment decodes, the joined path can only be refused for its length. */
  lemma DecodePathExact(encoded: string)
    requires WellEscaped(encoded) && DecodeSegments(Split(encoded, '/')).Ok?
    ensures var path := Join(DecodeSegments(Split(encoded, '/')).value, '/');
            DecodePath(encoded) == if |path| > MAXIMUM_LOGICAL_PATH then Err(TooLong) else Ok(path)
    ensures ValidUtf8(Join(DecodeSegments(Split(encoded, '/')).value, '/'))
  {
    hide ValidUtf8, SafeSegment, Split, Join, DecodeSegments, WellEscaped, ValidateDecodedPath;
    var decoded := DecodeSegments(Split(encoded, '/')).value;
    DecodedSegments(Split(encoded, '/'));
    assert Pieces(decoded, '/');
    JoinedIsSafe(decoded);
    Utf8Join(decoded, '/');
  }

  /** Every parsed identifier is valid. */
  lemma ParsedIsValid(input: string)
    requires Parse(input).Ok?
    ensures ValidUri(Parse(input).value)
  {
    hide ValidUtf8, ValidateDecodedPath, DecodeSegments, WellEscaped, ParseU64, Split, Join, ValidSlug, StripPrefix;
    var body := StripPrefix(input, SCHEME).value;
    var located := SplitQuery(body).value;
    var parts := SplitLocation(located.0).value;
    DecodePathExact(parts.2);
    VersionInRange(located.1);
  }

  lemma VersionInRange(query: Option<string>)
    requires ParseVersion(query).Ok?
    ensures ValidVersion(ParseVersion(query).value)
  {
  }

  /** For every accepted text: printing and parsing again returns the same identifier exactly when the
      printed form is within the limit, and that is exactly when `new` would have built it. */
  lemma ReparseExact(input: string)
    requires Parse(input).Ok?
    ensures var u := Parse(input).value;
            && (Parse(Print(u)) == Ok(u) <==> |Print(u)| <= MAXIMUM_URI)
            && (Parse(Print(u)) == Err(TooLong) <==> |Print(u)| > MAXIMUM_URI)
            && (New(u.workspace, u.project, u.path, u.version) == Ok(u) <==> |Print(u)| <= MAXIMUM_URI)
  {
    hide Print, ParseBounded;
    ParsedIsValid(input);
    RoundTrip(Parse(input).value);
  }

  // ----- lengths

  lemma {:induction false} PrintedSegmentsLength(segments: seq<string>)
    requires segments != []
    ensures |PrintSegments(segments)| <= 1 + 3 * |Join(segments, '/')|
  {
    EncodedChars(segments[0]);
    if |segments| > 1 {
      PrintedSegmentsLength(segments[1..]);
    } else {
      assert PrintSegments(segments[1..]) == "";
    }
  }

  lemma PrintLength(u: Uri)
    ensures |Print(u)| <= |SCHEME| + |u.workspace| + |u.project| + 2 + 3 * |u.path| + |PrintVersion(u.version)|
  {
    hide PrintSegments, Split, Join;
    JoinSplit(u.path, '/');
    PrintedSegmentsLength(Split(u.path, '/'));
  }

  /** A valid path of at most 1309 bytes is never too long, whatever the slugs and the version. */
  lemma ShortPathsFit(workspace: string, project: string, path: string, version: Option<nat>)
    requires ValidSlug(workspace) && ValidSlug(project) && ValidVersion(version)
    requires ValidateDecodedPath(path) == Fine && |path| <= 1309
    ensures New(workspace, project, path, version) == Ok(Uri(workspace, project, path, version))
  {
    hide Print, DecimalText, ValidateDecodedPath;
    PrintLength(Uri(workspace, project, path, version));
    if version.Some? { U64Length(version.value); }
  }

  // ----- a text that parses but whose identifier cannot be printed and parsed again

  function Bangs(n: nat): (s: string)
    ensures |s| == n && forall i | 0 <= i < n :: s[i] == '!'
  {
    seq(n, _ => '!')
  }

  lemma {:induction false} BangsEncode(n: nat)
    ensures |Encode(Bangs(n))| == 3 * n && Decode(Bangs(n)) == Bangs(n) && ValidUtf8(Bangs(n))
  {
    if n > 0 {
      assert Bangs(n)[1..] == Bangs(n - 1);
      BangsEncode(n - 1);
      assert Bangs(n) == ['!'] + Bangs(n - 1);
      LeadAscii(Bangs(n));
    }
  }

  lemma BangsSafe(n: nat)
    requires n > 0
    ensures SafeSegment(Bangs(n)) && '/' !in Bangs(n) && Plain(Bangs(n))
  {
    var s := Bangs(n);
    assert s[0] == '!';
    assert forall i | 0 <= i < |s| :: !ControlAt(s, i);
  }

  lemma BangsPath(n: nat)
    requires 0 < n <= MAXIMUM_LOGICAL_PATH
    ensures ValidateDecodedPath(Bangs(n)) == Fine && DecodePath(Bangs(n)) == Ok(Bangs(n))
    ensures |PrintSegments(Split(Bangs(n), '/'))| == 1 + 3 * n
  {
    hide Encode, Decode, ValidUtf8, Split, HasControl;
    var s := Bangs(n);
    BangsEncode(n);
    BangsSafe(n);
    SplitSingle(s, '/');
    assert [s][1..] == [];
    assert DecodeSegment(s) == Ok(s);
    assert DecodeSegments([s]) == Ok([s] + []);
    assert [s] + [] == [s];
  }

  lemma BangsParse(n: nat)
    requires 0 < n <= MAXIMUM_LOGICAL_PATH
    ensures ParseLocated("a" + "/" + "b" + "/" + Bangs(n), None) == Ok(Uri("a", "b", Bangs(n), None))
    ensures Plain("a" + "/" + "b" + "/" + Bangs(n))
  {
    hide DecodePath, SplitLocation;
    BangsPath(n);
    BangsSafe(n);
    LocationSplits("a", "b", Bangs(n));
  }

  /** Unescaped exclamation marks triple when printed. */
  lemma BangsText(n: nat)
    requires 0 < n <= MAXIMUM_LOGICAL_PATH
    ensures Parse(SCHEME + ("a" + "/" + "b" + "/" + Bangs(n))) == Ok(Uri("a", "b", Bangs(n), None))
  {
    hide ParseLocated, ParseBounded, Plain;
    BangsParse(n);
    BareLocationParses("a" + "/" + "b" + "/" + Bangs(n));
  }

  lemma BangsPrint(n: nat)
    requires 0 < n <= MAXIMUM_LOGICAL_PATH
    ensures |Print(Uri("a", "b", Bangs(n), None))| == 15 + 3 * n
  {
    hide PrintSegments, Split, Bangs;
    BangsPath(n);
  }

  /** 1400 unescaped exclamation marks make an accepted text whose printed form exceeds the limit. */
  lemma ParsedCanBeUnprintable()
    ensures exists input :: Parse(input).Ok? && Parse(Print(Parse(input).value)) == Err(TooLong)
  {
    hide Print, ParseBounded, Bangs;
    BangsText(1400);
    BangsPrint(1400);
    var input := SCHEME + ("a" + "/" + "b" + "/" + Bangs(1400));
    assert Parse(input).Ok? && Parse(Print(Parse(input).value)) == Err(TooLong);
  }

  lemma BareLocationParses(location: string)
    requires Plain(location)
    ensures ParseBounded(SCHEME + location) == ParseLocated(location, None)
  {
    StripPrefixConcat(SCHEME, location);
  }

  function Letters(n: nat): (s: string)
    ensures |s| == n && forall i | 0 <= i < n :: s[i] == 'a'
  {
    seq(n, _ => 'a')
  }

  lemma LettersSlug()
    ensures ValidSlug(Letters(63)) && |Letters(63)| == 63
  {
    var s := Letters(63);
    assert s[0] == 'a' && s[62] == 'a';
  }

  /** The bound 1309 cannot be raised: at 1310 bytes some identifier is too long. */
  lemma ShortPathBoundIsTight()
    ensures exists workspace, project, path, version ::
              && ValidSlug(workspace) && ValidSlug(project) && ValidVersion(version)
              && ValidateDecodedPath(path) == Fine && |path| == 1310
              && New(workspace, project, path, version) == Err(TooLong)
  {
    hide DecimalText, ValidateDecodedPath, PrintSegments, Split, Bangs, ValidSlug, Letters;
    LettersSlug();
    var slug, path, version := Letters(63), Bangs(1310), Some(U64_LIMIT - 1);
    BangsPath(1310);
    LargestLength();
    var u := Uri(slug, slug, path, version);
    assert |Print(u)| > MAXIMUM_URI;
    assert New(slug, slug, path, version) == Err(TooLong);
  }

  lemma LargestLength()
    ensures |DecimalText(U64_LIMIT - 1)| >= 19
  {
    assert Power10(2) == 100;
    PowerStep(2);
    PowerStep(6);
    PowerStep(10);
    PowerStep(14);
    DecimalAtLeast(U64_LIMIT - 1, 18);
  }
}
