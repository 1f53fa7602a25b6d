/** Blobyard object identifiers: construction, printing and parsing. */
module BlobyardUri {
  import opened Text
  import opened Utf8
  import opened Paths
  import opened Percent
  import opened Decimal

  const SCHEME := "blobyard://"
  const MAXIMUM_URI := 4096
  const MAXIMUM_SLUG := 63

  datatype UriError =
    TooLong | InvalidScheme | InvalidStructure | InvalidWorkspace | InvalidProject | InvalidPath
    | InvalidPercentEncoding | InvalidVersion

  datatype Uri = Uri(workspace: string, project: string, path: string, version: Option<nat>)

  /** `Slug::new` accepts. */
  predicate ValidSlug(s: string)
  {
    && 0 < |s| <= MAXIMUM_SLUG && IsAlphanumeric(s[0]) && IsAlphanumeric(s[|s| - 1])
    && forall i | 0 <= i < |s| :: IsAlphanumeric(s[i]) || s[i] == '-' || s[i] == '_'
  }

  /** A non-zero unsigned 64-bit selector, when there is one. */
  predicate ValidVersion(version: Option<nat>)
  {
    version.Some? ==> 0 < version.value < U64_LIMIT
  }

  // ----- printing

  function PrintSegments(segments: seq<string>): string
  {
    if segments == [] then "" else "/" + Encode(segments[0]) + PrintSegments(segments[1..])
  }

  function PrintVersion(version: Option<nat>): string
  {
    match version
    case None => ""
    case Some(n) => "?version=" + DecimalText(n)
  }

  function Print(u: Uri): string
  {
    SCHEME + u.workspace + "/" + u.project + PrintSegments(Split(u.path, '/')) + PrintVersion(u.version)
  }

  /** `Display::fmt`, writing segment by segment. */
  method Format(u: Uri) returns (text: string)
    ensures text == Print(u)
  {
    text := SCHEME + u.workspace + "/" + u.project;
    var segments := Split(u.path, '/');
    ghost var start := text;
    for k := 0 to |segments|
      invariant text + PrintSegments(segments[k..]) == start + PrintSegments(segments)
    {
      Advance(segments, k);
      ghost var before := text;
      text := text + "/" + Encode(segments[k]);
      assert segments[k..][1..] == segments[k + 1..];
      assert text + PrintSegments(segments[k + 1..]) ==
             before + ("/" + Encode(segments[k]) + PrintSegments(segments[k + 1..]));
    }
    assert segments[|segments|..] == [];
    if u.version.Some? {
      text := text + ("?version=" + DecimalText(u.version.value));
    }
  }

  // ----- construction

  function PathError(verdict: PathVerdict): UriError
    requires verdict != Fine
  {
    if verdict == Oversized then TooLong else InvalidPath
  }

  /** `BlobyardUri::new`, from slugs that are already validated. */
  function New(workspace: string, project: string, path: string, version: Option<nat>): Result<Uri, UriError>
  {
    var verdict := ValidateDecodedPath(path);
    var u := Uri(workspace, project, path, version);
    if verdict != Fine then Err(PathError(verdict))
    else if |Print(u)| > MAXIMUM_URI then Err(TooLong)
    else Ok(u)
  }

  // ----- parsing

  function SplitQuery(body: string): Result<(string, Option<string>), UriError>
  {
    match SplitOnce(body, '?')
    case None => Ok((body, None))
    case Some((location, query)) => if '?' in query then Err(InvalidStructure) else Ok((location, Some(query)))
  }

  function SplitLocation(location: string): Result<(string, string, string), UriError>
  {
    match SplitOnce(location, '/')
    case None => Err(InvalidStructure)
    case Some((workspace, remainder)) =>
      match SplitOnce(remainder, '/')
      case None => Err(InvalidStructure)
      case Some((project, path)) =>
        if workspace == "" || project == "" || path == "" then Err(InvalidStructure)
        else Ok((workspace, project, path))
  }

  function DecodeSegment(segment: string): Result<string, UriError>
  {
    var decoded := Decode(segment);
    if !ValidUtf8(decoded) then Err(InvalidPercentEncoding)
    else if decoded == "" || decoded == "." || decoded == ".." || '/' in decoded || '\\' in decoded ||
            HasControl(decoded)
    then Err(InvalidPath)
    else Ok(decoded)
  }

  /** Segment by segment; the first failure decides. */
  function DecodeSegments(segments: seq<string>): Result<seq<string>, UriError>
  {
    if segments == [] then Ok([])
    else match DecodeSegment(segments[0])
      case Err(e) => Err(e)
      case Ok(first) =>
        match DecodeSegments(segments[1..])
        case Err(e) => Err(e)
        case Ok(rest) => Ok([first] + rest)
  }

  function DecodePath(encoded: string): Result<string, UriError>
  {
    if !WellEscaped(encoded) then Err(InvalidPercentEncoding)
    else match DecodeSegments(Split(encoded, '/'))
      case Err(e) => Err(e)
      case Ok(segments) =>
        var path := Join(segments, '/');
        var verdict := ValidateDecodedPath(path);
        if verdict != Fine then Err(PathError(verdict)) else Ok(path)
  }

  const VERSION_KEY := "version="

  function ParseVersion(query: Option<string>): Result<Option<nat>, UriError>
  {
    if query.None? then Ok(None)
    else match StripPrefix(query.value, VERSION_KEY)
      case None => Err(InvalidVersion)
      case Some(raw) =>
        if raw == "" || '&' in raw then Err(InvalidVersion)
        else match ParseU64(raw)
          case None => Err(InvalidVersion)
          case Some(n) => if n == 0 then Err(InvalidVersion) else Ok(Some(n))
  }

  /** `BlobyardUri::from_str`. Only the text that comes in is bounded, not the text it would print as. */
  function Parse(input: string): Result<Uri, UriError>
  {
    if |input| > MAXIMUM_URI then Err(TooLong) else ParseBounded(input)
  }

  /** Everything after the length check. */
  function ParseBounded(input: string): Result<Uri, UriError>
  {
    match StripPrefix(input, SCHEME)
    case None => Err(InvalidScheme)
    case Some(body) =>
      if '#' in body then Err(InvalidStructure)
      else match SplitQuery(body)
        case Err(e) => Err(e)
        case Ok((location, query)) => ParseLocated(location, query)
  }

  function ParseLocated(location: string, query: Option<string>): Result<Uri, UriError>
  {
    match SplitLocation(location)
    case Err(e) => Err(e)
    case Ok((workspace, project, encoded)) =>
      if !ValidSlug(workspace) then Err(InvalidWorkspace)
      else if !ValidSlug(project) then Err(InvalidProject)
      else match DecodePath(encoded)
        case Err(e) => Err(e)
        case Ok(path) =>
          match ParseVersion(query)
          case Err(e) => Err(e)
          case Ok(version) => Ok(Uri(workspace, project, path, version))
  }
}
