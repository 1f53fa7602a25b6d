# Blobyard core, modelled and proved in Dafny

This project models five pieces of Blobyard and proves what they guarantee for every input and every run:

1. **Application-role policies**: validation of a role-inheritance graph, the worklist searches, the canonical
   form and the precomputed closure (`Policy*.dfy`).
2. **Object identifiers**: `blobyard://` parsing and printing over bytes, with percent encoding, UTF-8, decimal
   versions and the path validators (`Uri*.dfy`, `Percent.dfy`, `Utf8*.dfy`, `Decimal.dfy`, `Path*.dfy`).
3. **Credentials and hosts**: the base32 bit buffer, hexadecimal text, the secret invariant and Web Yard origins
   (`PreviewHost.dfy`, `Words.dfy`, `Radix.dfy`, `Secret.dfy`, `Credentials.dfy`, `Origin*.dfy`).
4. **The MCP server**: tool-call parsing, the advertised schemas, output redaction and the stateful JSON-RPC
   processor (`Tool*.dfy`, `Sanitize*.dfy`, `Server*.dfy`, `Json.dfy`).
5. **Profile bootstrap**: token stores, config file and compensation under any failure, and whole runs of commands
   (`Profile*.dfy`).

`Text.dfy` and `Order.dfy` hold splitting, joining and the string order. `dafny verify dfyconfig.toml` checks
everything.

## Conventions

- A `string` is a byte string: each byte is the character with its code. Rust's guarantee that a `String` is UTF-8
  is the predicate `Utf8.ValidUtf8`, written out from the well-formedness table of the Unicode standard.
- Each validator, parser and table is also stated a second time in other words, over characters, positions, literal
  limits, fault names or the fields of a message, and the two are proved equivalent for every input: `AcceptedExactly`,
  `UriGrammar.ParseExact`, `PathExact`, `Utf8Exact`, `SensitiveKeyExact`, `PositionExact`, `ResourceCallExact`,
  `SchemaAgrees`, `FaultsExact`, `ProfileOutcomes.OutcomeExact`, `CredentialExact`, `OriginExact`.
- Methods and classes follow the source's loops and updates. Each is proved against a function or a path-based
  definition, and the theorems are lemmas about those.
- The tool backend is an arbitrary function of all earlier calls and the present one. JSON text, TOML text, URL
  parsing and the service's replies are parameters.
- The sixteen-bit buffer of the base32 encoder is a word of sixteen bits with bitwise shifts, OR and AND, so what a
  shift drops is dropped; `BitOperations` says what each does to the number in the buffer.
- A failure is a set of failing steps, one name for each step that can fail; tokens are kept by slot, a platform-store
  entry or a credential file for each profile.

## Where the code and its documentation differ

- `canonicalize_application_policy` documents an error for undeclared inheritance. The cycle search indexes the role
  map at names that have not been checked yet, so some such graphs panic instead. The panic is the outcome
  `MissingRole`; `UndeclaredCanPanic` gives a graph. `OutcomeExact` gives the outcome of every graph from its first
  failing role, unless that role passes its own checks and inherits both itself and an undeclared name.
- For exactly those graphs the order of the arrays decides between the error and the panic: `OrderBlind` is the
  if-and-only-if, `OrderDecides` builds both orders for any such graph and `OrderDecidesPanic` is a small one.
- An identifier parsed from text need not survive printing: only the text that comes in is bounded
  (`ParsedCanBeUnprintable`, with `ReparseExact` as the exact condition).
- The tool catalogues list 22 tools as destructive. Exactly ten of them demand `confirm`: those of the administration
  and group catalogues and Yard deletion (`ConfirmationExact`). The other twelve act without it; `UnconfirmedDeletion`
  is a run in which an object is deleted.
- The server advertises a JSON schema for each tool. The parser does not ask for the `workspace` that twelve schemas
  require (`MembersWithoutWorkspace`), for distinct `allowed_actions` or for well-formed role definitions, and it asks
  for true safeguards, a listed `principal_kind` and a default role that is not empty, which the schemas do not say.
  Apart from these six the two agree on every call to every tool (`AcceptedAsAdvertised`).
- Section 5 of JSON-RPC 2.0 has a response identifier be a string, a number or null. An object with a wrong version or
  method is answered with whatever identifier it has (`IllegalIdEchoed`, with `ReplyDiscipline` as the exact condition).
- The token store's `save` is documented as atomic. The file store moves the token into place and then tightens the
  permissions of its path; when that last step fails, `save` fails with the token stored, and `prepare` does not
  compensate (`RefusedButStored`, with `TokenLeftBehind` as the exact condition).
- `profiles add` refuses a profile that already exists. It looks the name up only when `profiles` is a table; after
  `[[profiles]]`, an array of tables, the block it writes still parses and its name is never found, so the same profile
  can be added again, its token replaced or, if the second write fails, deleted (`AddedTwice`, with `TwiceExactly`,
  `LosesExactly` and `SafeExactly` as the exact conditions).

## Model

| member | source | states |
|---|---|---|
| PolicyTheorems.AcceptanceExact | crates/blobyard-core/src/application_policy.rs:60-125 | acceptance is the validity the other policy theorems use: limits, default role, role-local checks and no role that inherits itself through a path; the panic needs an undeclared inherited name |
| PolicyAcceptance.AcceptedExactly | crates/blobyard-core/src/application_policy.rs:78-125 | a graph is accepted if and only if it has at most 32 roles and a declared default role, every role name is well spelled, every role has at most 8 inherited and 64 permission texts with no two positions alike, inherited names declared and permissions well spelled, and no chain of inheritance ends where it starts; no predicate of the validator occurs in the condition |
| PolicyAcceptance.UniqueExact | crates/blobyard-core/src/application_policy.rs:109-111 | as many distinct names as positions if and only if no two positions hold the same name |
| PolicyAcceptance.PermissionExact | crates/blobyard-core/src/application_manifest/patterns.rs:19-138 | a permission is two to four nonempty parts joined by dots, each a small letter followed by small letters, digits and underscores, in at most 128 bytes |
| PolicyOrder.OutcomeExact | crates/blobyard-core/src/application_policy.rs:78-125 | every graph's outcome: the error if a limit or the default role fails, acceptance if no role fails, and otherwise the first failing role in name order decides: the error if it fails its own checks or inherits only declared names, the panic if it inherits an undeclared name and not itself, never acceptance |
| PolicyOrder.UndeclaredCanPanic | crates/blobyard-core/src/application_policy.rs:113-125 | a concrete graph with an undeclared inherited name panics instead of being reported |
| PolicyTheorems.EffectiveExact | crates/blobyard-core/src/application_policy.rs:134-163 | stored roles are exactly the roles reachable by zero or more inheritance steps in the graph that came in, strictly sorted; stored permissions are exactly those of the reached roles, strictly sorted |
| PolicyTheorems.EffectiveOrder | crates/blobyard-core/src/application_policy.rs:87-163 | effective roles are a partial order, permissions grow along it, and closure size is a rank that falls along every edge |
| PolicyOrder.OrderBlind | crates/blobyard-core/src/application_policy.rs:60-132 | every reordering of a graph's arrays has the same result if and only if its first failing role, if any, is not one that passes its own checks and inherits both itself and an undeclared name |
| PolicyOrder.OrderDecides | crates/blobyard-core/src/application_policy.rs:113-125 | for every graph of the excepted kind there is a reordering that is an error and one that panics |
| PolicyOrder.SearchFollows | crates/blobyard-core/src/application_policy.rs:113-125 | with each role of a simple path inheriting its next step last, the search walks that path and stops at its end |
| PolicyOrder.OrderDecidesPanic | crates/blobyard-core/src/application_policy.rs:113-125 | two graphs that differ only in array order, one an error and one a panic |
| PolicyTheorems.Idempotent | crates/blobyard-core/src/application_policy.rs:60-67 | canonicalising an accepted graph's canonical form returns the same graph and closure |
| PolicyTheorems.EffectiveBounds | crates/blobyard-core/src/application_policy.rs:4-9 | at most 32 effective roles and 2048 effective permissions for each role |
| PolicyPaths.SearchExact | crates/blobyard-core/src/application_policy.rs:113-125 | the search ends without a finding if and only if the origin never inherits itself and inherits only declared roles; each finding is real |
| PolicyPaths.HasCycleExact | crates/blobyard-core/src/application_policy.rs:113-125 | with every name declared, the search answers whether a nonempty path leads back to the origin |
| PolicyLoops.HasCycle | crates/blobyard-core/src/application_policy.rs:113-125 | the stack loop terminates, computes that search, and pops at most 256 entries within the limits |
| PolicyLoops.ValidateGraph | crates/blobyard-core/src/application_policy.rs:78-107 | the loop over roles in ascending order stops at the first failing role with its outcome |
| PolicyLoops.CanonicalizeDirectArrays | crates/blobyard-core/src/application_policy.rs:127-132 | sorts both arrays of every role and nothing else |
| PolicyLoops.InheritedClosure | crates/blobyard-core/src/application_policy.rs:154-163 | the worklist computes the sorted set of reachable roles, popping at most 256 entries within the limits |
| PolicyLoops.ExpandGraph | crates/blobyard-core/src/application_policy.rs:134-152 | one closure and one sorted permission union for each role |
| PolicyLoops.CanonicalizeApplicationPolicy | crates/blobyard-core/src/application_policy.rs:60-67 | the whole operation equals its declarative meaning and accepts exactly the graphs that keep the written-out rules of `AcceptedExactly` |
| Order.Sort | crates/blobyard-core/src/application_policy.rs:128-131 | sorted, and a permutation of its input |
| Order.SortedUnique | crates/blobyard-core/src/application_policy.rs:127-132 | two sorted lists with the same elements are equal, which makes the canonical form unique |
| Order.Ascending | crates/blobyard-core/src/application_policy.rs:137-145 | ordered-set iteration: strictly ascending, every element once |
| Order.LeqDecided | crates/blobyard-core/src/application_policy.rs:127-145 | the string order: a prefix comes before what extends it, and where two texts first differ the smaller byte comes first |
| UriTheorems.RoundTrip | crates/blobyard-core/src/uri.rs:115-158 | parsing the printed text of any valid identifier returns it if the text is within 4096 bytes and is refused as too long otherwise |
| UriTheorems.NewRoundTrips | crates/blobyard-core/src/uri.rs:58-76 | whatever `new` accepts comes back unchanged from its printed text |
| UriTheorems.PrintInjective | crates/blobyard-core/src/uri.rs:115-130 | identifiers with equal text are equal, whatever the length |
| UriTheorems.ParsedIsValid | crates/blobyard-core/src/uri.rs:132-158 | every parsed identifier has valid slugs, a safe UTF-8 path and a non-zero 64-bit version |
| UriTheorems.ReparseExact | crates/blobyard-core/src/uri.rs:64-75 | for every accepted text, printing and parsing again succeeds if and only if the printed form is within 4096 bytes, which is exactly when `new` would build it |
| UriTheorems.ParsedCanBeUnprintable | crates/blobyard-core/src/uri.rs:135-157 | some accepted text prints as one that is refused |
| UriTheorems.ShortPathsFit | crates/blobyard-core/src/uri.rs:10-11 | `new` never refuses a valid path of at most 1309 bytes |
| UriTheorems.ShortPathBoundIsTight | crates/blobyard-core/src/uri.rs:71-72 | at 1310 bytes some identifier is too long |
| UriTheorems.PathRoundTrip | crates/blobyard-core/src/uri.rs:203-242 | decoding the segment-wise encoding of a safe path returns the path |
| UriTheorems.DecodePathExact | crates/blobyard-core/src/uri.rs:203-228 | once every segment decodes, the joined path is UTF-8 and can only be refused for its length; `DecodePathSpelled` says which texts decode to what |
| UriEscapes.EscapeDecodes | crates/blobyard-core/src/uri.rs:230-233 | for every byte and each of the four case spellings of its two digits, the escape decodes to that byte |
| UriEscapes.SpellsExact | crates/blobyard-core/src/uri.rs:230-260 | a text is well escaped and decodes to given bytes if and only if it spells them: each byte as itself, unless it is a percent sign, or as a percent sign and two digits looked up in the small or the capital row |
| UriEscapes.RecasedPath | crates/blobyard-core/src/uri.rs:203-260 | decoding a path is blind to the case of escape digits: every re-casing of a well-escaped path gets the same answer |
| UriEscapes.RecasedRoundTrip | crates/blobyard-core/src/uri.rs:118-124 | a safe path comes back from every re-casing of the escapes of its printed form |
| UriGrammar.DecodePathSpelled | crates/blobyard-core/src/uri.rs:203-242 | a path is decoded from exactly the texts that spell it segment by segment, each segment a nonempty text of scalar values that is not a dot segment and holds no slash, backslash or control, within 2048 bytes |
| UriGrammar.BrokenEscape | crates/blobyard-core/src/uri.rs:203-204 | a broken escape in any piece is an invalid encoding, before anything else is looked at |
| UriGrammar.WrongSegment | crates/blobyard-core/src/uri.rs:205-242 | otherwise the first piece that spells no segment decides: an invalid encoding if its bytes are not UTF-8, an invalid path if they are |
| UriGrammar.LongPath | crates/blobyard-core/src/uri.rs:209-216 | otherwise only more than 2048 bytes is refused, as too long |
| UriGrammar.ParseExact | crates/blobyard-core/src/uri.rs:132-158 | a text of at most 4096 bytes parses to an identifier if and only if it is the scheme, the two slugs, a text that spells the path, and nothing or a version query for its version; a longer text is too long |
| UriGrammar.StructureExact | crates/blobyard-core/src/uri.rs:139-201 | the scheme error is exactly a text that does not start with the scheme, and the structure error exactly one whose delimiters cannot be laid out as workspace, project, path and query with nonempty parts |
| UriGrammar.LaidDecides | crates/blobyard-core/src/uri.rs:146-156 | for a text so laid out, the first wrong one of workspace, project, path and version decides the error |
| UriGrammar.SlugExact | crates/blobyard-core/src/slug.rs:21-36 | a slug is 1 to 63 letters, digits, hyphens and underscores with a letter or digit at both ends |
| UriGrammar.VersionExact | crates/blobyard-core/src/uri.rs:262-278 | a version is absent without a query, and otherwise `version=`, an optional plus sign, any zeros and the decimal text of a positive 64-bit number; anything else is the version error |
| UriGrammar.NewExact | crates/blobyard-core/src/uri.rs:58-76 | the answer of `new` for every UTF-8 path: too long above 2048 bytes, unsafe when it is no path, too long when it prints above 4096, and otherwise the identifier |
| UriGrammar.PrintExact | crates/blobyard-core/src/uri.rs:115-130 | what is printed is laid out as what is parsed |
| UriGrammar.EncodedByte | crates/blobyard-core/src/uri.rs:12-41 | a byte is printed as itself when it is a letter, a digit or one of four signs, and otherwise as a percent sign and two capital digits |
| UriTheorems.VersionRoundTrip | crates/blobyard-core/src/uri.rs:262-278 | the printed version selector parses back |
| BlobyardUri.Format | crates/blobyard-core/src/uri.rs:115-130 | writing segment by segment produces the printed form |
| Percent.ValidatePercentEncoding | crates/blobyard-core/src/uri.rs:244-256 | the scanner that steps over escape digits accepts exactly the texts in which every `%` is followed by two hex digits |
| Percent.DecodeEncode | crates/blobyard-core/src/uri.rs:118-124 | percent decoding undoes segment encoding, byte for byte |
| Percent.EncodeSetIsComplement | crates/blobyard-core/src/uri.rs:12-41 | the encode table leaves alone exactly the unreserved characters of section 2.3 of RFC 3986 |
| Percent.EncodedChars | crates/blobyard-core/src/uri.rs:12-41 | encoded text is unreserved characters and escapes, at most three times as long |
| Percent.EscapesStayInSegments | crates/blobyard-core/src/uri.rs:203-208 | no escape straddles a slash: a path is well escaped if and only if each segment is |
| Decimal.ParseDecimal | crates/blobyard-core/src/uri.rs:272-276 | unsigned 64-bit decimal text parses back |
| Utf8.Utf8Cut | crates/blobyard-core/src/uri.rs:230-233 | an ASCII byte is a UTF-8 boundary: text is well formed if and only if both sides of it are |
| Utf8.ControlByCharacters | crates/blobyard-core/src/uri.rs:222 | on UTF-8 text the byte test finds a control character if and only if some decoded character is one |
| Utf8Points.Utf8Exact | crates/blobyard-core/src/uri.rs:230-233 | the accepted byte strings are exactly the encodings of sequences of Unicode scalar values |
| Utf8Points.ControlExact | crates/blobyard-core/src/uri.rs:222 | a text has a control character if and only if one of its code points is below U+0020 or from U+007F to U+009F |
| PathTexts.SegmentExact | crates/blobyard-core/src/uri.rs:217-223 | a segment both validators accept is a nonempty sequence of scalar values, not one or two dots, without slash, backslash or control |
| PathTexts.PathExact | crates/blobyard-contract/src/lib.rs:25-35 | a UTF-8 text is a valid relative path if and only if it is within the limit and such segments joined by slashes |
| PathTexts.LogicalPathExact | crates/blobyard-core/src/uri.rs:213-228 | the same for the URI path validator at 2048 bytes, with the length error told apart |
| PathTexts.StorageKeyExact | crates/blobyard-contract/src/storage.rs:34-53 | the same for storage keys at 512 bytes |
| PathTexts.YardPathSegments | crates/blobyard-contract/src/yards.rs:7-15 | the same for Yard paths at 1024 bytes, with a first segment other than the reserved directory |
| Paths.ValidatorsAgree | crates/blobyard-contract/src/lib.rs:25-35 | the URI path validator and the contract's relative-path validator accept the same texts at limit 2048 |
| Paths.KeyStaysUnderRoot | crates/blobyard-contract/src/storage.rs:34-53 | removing dot segments (section 5.2.4 of RFC 3986) from any root, absolute or relative, followed by an accepted key gives the resolved root followed by the key unchanged |
| Paths.StorageKeyCannotEscape | crates/blobyard-storage-s3/src/config.rs:87-98 | under a root without dot segments, absolute or relative as a key prefix is, the resolved path is the root, a slash and the storage key |
| Paths.YardPathExact | crates/blobyard-contract/src/yards.rs:7-15 | a Yard path is a relative path that neither is nor lies in the reserved directory |
| Paths.YardRequestPathExact | crates/blobyard-contract/src/yards.rs:17-25 | a request path is empty, a Yard path, or a Yard path and one slash |
| PreviewHost.EncodePreviewHost | crates/blobyard-core/src/secret.rs:130-148 | the nested loops over a sixteen-bit word write the 52 base-32 digits of the big-endian entropy times 16 |
| PreviewHost.BufferByte | crates/blobyard-core/src/secret.rs:134-136 | shifting in a byte loses nothing from the sixteen-bit buffer |
| PreviewHost.BufferDigit | crates/blobyard-core/src/secret.rs:137-142 | each emitted digit leaves exactly the remaining bits |
| PreviewHost.BitOperations | crates/blobyard-core/src/secret.rs:135-145 | shift, OR and AND on the buffer's bits are, on its number, wrapping multiplication plus the byte, quotient and remainder |
| Words.ShiftLeftMultiplies | crates/blobyard-core/src/secret.rs:135 | shifting left multiplies and drops exactly what leaves the sixteen bits |
| Words.ShiftRightDivides | crates/blobyard-core/src/secret.rs:139 | shifting right divides by the power of two |
| Words.MaskIsRemainder | crates/blobyard-core/src/secret.rs:139-141 | masking the low bits takes the remainder |
| Words.LowIsPower | crates/blobyard-core/src/secret.rs:141 | the mask is the power of two less one |
| Words.OrIsSum | crates/blobyard-core/src/secret.rs:135 | OR into the eight freed bits adds the byte |
| PreviewHost.DecodeLabel | crates/blobyard-core/src/secret.rs:113-121 | a decoder returns the entropy of every label, so labels retain all 256 bits |
| PreviewHost.EncodeDecodedLabel | crates/blobyard-core/src/secret.rs:130-148 | a text decodes only if it is the label of what it decodes to |
| PreviewHost.CapacityExact | crates/blobyard-core/src/secret.rs:144-146 | 52 five-bit digits hold exactly four bits more than 32 bytes |
| Secret.HexDigest | crates/blobyard-core/src/encoding.rs:3-11 | the loop writes two characters for each byte |
| Secret.HexReads | crates/blobyard-core/src/encoding.rs:6-9 | each pair of characters reads back as its byte, high half first |
| Secret.DigestIsChecksum | crates/blobyard-contract/src/storage.rs:66-89 | the checksum built from a digest is one the validating constructor accepts |
| Credentials.ChecksumExact | crates/blobyard-contract/src/storage.rs:66-89 | the checksum texts are exactly the texts of 32-byte digests |
| Secret.GeneratedInjective | crates/blobyard-core/src/secret.rs:48-111 | a generated credential's text determines its kind and its 32 bytes |
| Secret.GeneratedIsSecret | crates/blobyard-core/src/secret.rs:100-111 | generated credentials keep the secret invariant |
| Secret.HostLabelIsSecret | crates/blobyard-core/src/secret.rs:113-121 | preview host labels keep the secret invariant |
| Credentials.CredentialExact | crates/blobyard-server/src/yard_session_contracts.rs:200-204 | for each of the 17 kinds, a text is a generated credential of that kind if and only if it is the tag of the kind and 64 small hexadecimal digits, which is exactly when the recogniser accepts it |
| Credentials.ShapesApart | crates/blobyard-server/src/inbox_upload_auth.rs:133-141 | no text is recognised as credentials of two kinds, although some tags start alike |
| Credentials.SecretExact | crates/blobyard-core/src/secret.rs:75-92 | a text is accepted as a secret if and only if it has 1 to 16384 bytes and no control code point, and is kept as it is |
| Origin.HostIsDnsName | crates/blobyard-core/src/web_yard_origin.rs:74-80 | every host handed out is at most 253 bytes and every label of it is valid |
| Origin.PreviewLabelIsDns | crates/blobyard-core/src/web_yard_origin.rs:110-118 | every preview host label is a valid DNS label |
| Origin.SecretUrlIsSecret | crates/blobyard-core/src/web_yard_origin.rs:87-90 | the URL wrapped without validation satisfies the secret invariant |
| Origin.UrlReadsBack | crates/blobyard-core/src/web_yard_origin.rs:69-106 | a reader that looks only at the delimiters gets back scheme, Yard name, domain and port from every URL handed out |
| Origin.UrlDeterminesYard | crates/blobyard-core/src/web_yard_origin.rs:92-106 | a matching URL determines scheme, domain, port and Yard name |
| OriginTexts.OriginExact | crates/blobyard-core/src/web_yard_origin.rs:29-41 | an origin is valid if and only if it is HTTPS, or HTTP on localhost, with a domain of at most 189 bytes made of well-spelled labels joined by dots |
| OriginTexts.UrlExact | crates/blobyard-core/src/web_yard_origin.rs:69-106 | the URL and the secret URL of a Yard, written out, are given for exactly the names that are labels, and only that URL matches |
| OriginTexts.LongestHost | crates/blobyard-core/src/web_yard_origin.rs:4-6 | the limits leave nothing over: some host has exactly 253 bytes |
| ToolCallTheorems.ParseExact | crates/blobyard-mcp/src/tool_call.rs:186-293 | a call is accepted if and only if the tool exists, no key is foreign and every argument is well typed |
| ToolCallTheorems.ParsedCarries | crates/blobyard-mcp/src/tool_call.rs:209-355 | an accepted call holds the scope and, argument by argument, the caller's values, and nothing else |
| ToolCallTheorems.TablesAgree | crates/blobyard-mcp/src/admin_call.rs:177-297 | for every tool the separately written key table is exactly what the parser reads, each key once, plus workspace and project |
| ToolCallTheorems.SafeguardExact | crates/blobyard-mcp/src/admin_call.rs:191-306 | for every tool, the listed safeguard is exactly the argument its parser requires to be true, and it is read before anything else |
| ToolCallTheorems.ConfirmationExact | crates/blobyard-mcp/src/catalog_annotations.rs:26-41 | a tool demands `confirm` if and only if a catalogue lists it as destructive and that is the administration or group catalogue or it deletes a Yard; only deployment demands `public` |
| ToolCallTheorems.ParsedIsAuthorised | crates/blobyard-mcp/src/yard_call_arguments.rs:6-58 | an accepted safeguarded call had its safeguard set to the boolean true, and only allowed keys |
| ToolCatalogue.SchemaAgrees | crates/blobyard-mcp/src/catalog.rs:121-205 | the catalogues list exactly the tools the parser knows, and each tool advertises exactly the arguments its parser reads, with the same keys, kinds and required ones |
| ToolCatalogue.AcceptedAsAdvertised | crates/blobyard-mcp/src/catalog_contracts.rs:8-285 | for every tool and every argument object the parser accepts exactly what satisfies the advertised schema, but for three things only the schema asks and three only the parser asks |
| ToolCatalogue.MembersWithoutWorkspace | crates/blobyard-mcp/src/admin_catalog.rs:96 | a tool whose schema requires a workspace and whose parser accepts a call without one |
| ToolCatalogue.PrincipalsExact | crates/blobyard-mcp/src/yard_call.rs:280-294 | an accepted grant of access is for a user, a group or a link |
| ToolRefusals.NameRefused | crates/blobyard-mcp/src/tool_call.rs:186-208 | what a call with a foreign name or without an argument object is told |
| ToolRefusals.ScopeRefusal | crates/blobyard-mcp/src/tool_call.rs:290-295 | what an ill-typed workspace, and after it an ill-typed project, is told |
| ToolRefusals.ArgumentsRefused | crates/blobyard-mcp/src/tool_call.rs:209-355 | after that the first fault decides what is told: the least foreign key, an unknown tool, or the first ill-typed argument in reading order with the complaint for what it holds |
| Sanitize.SanitizeValue | crates/blobyard-mcp/src/sanitize.rs:33-53 | the recursion and its array loop compute the sanitised tree |
| Sanitize.SanitizeFields | crates/blobyard-mcp/src/sanitize.rs:38-49 | the field loop treats every field once |
| SanitizeTheorems.EveryPosition | crates/blobyard-mcp/src/sanitize.rs:33-106 | at every position of the output: it existed before, a sensitive field holds the marker, the issued root invitation is untouched, everything else keeps its shape, and a sensitive URL survives only in that invitation; `PositionExact` says the same by spellings |
| SanitizeKeys.SensitiveKeyExact | crates/blobyard-mcp/src/sanitize.rs:61-90 | for every key, told by its letters in any case with `-` or `.` for `_`: a share, preview or inbox link is hidden if and only if the call did not issue it; a transfer URL, a one-time password or a key that holds one of eleven words is hidden for every capability; any other key never is |
| SanitizeKeys.SensitiveUrlExact | crates/blobyard-mcp/src/sanitize.rs:92-106 | a text is hidden if and only if after some question mark it holds one of the five markers, in any case |
| SanitizeKeys.PositionExact | crates/blobyard-mcp/src/sanitize.rs:33-106 | what stands at every position of the output, told by keys and texts alone: the marker under a hidden key, a fresh root-level invitation as it was, and otherwise the same kind, items, keys and leaves except a text whose query carries a secret |
| SanitizeKeys.ReachedExact | crates/blobyard-mcp/src/sanitize.rs:33-53 | a position of the tree is in the output if and only if no field above it has a hidden key |
| SanitizeTheorems.OpenPosition | crates/blobyard-mcp/src/sanitize.rs:33-53 | every position not below a sensitive key survives |
| SanitizeTheorems.HiddenPosition | crates/blobyard-mcp/src/sanitize.rs:43-44 | a sensitive field is replaced by the marker |
| SanitizeTheorems.Noninterference | crates/blobyard-mcp/src/sanitize.rs:29-106 | two trees sanitise to the same tree if and only if they agree on everything but hidden data |
| SanitizeTheorems.Idempotent | crates/blobyard-mcp/src/sanitize.rs:29-53 | sanitising twice is sanitising once |
| SanitizeTheorems.InvitationKeysNotSensitive | crates/blobyard-mcp/src/sanitize.rs:55-81 | the invitation field is not itself a sensitive key |
| Server.Negotiate | crates/blobyard-mcp/src/server.rs:114-118 | the version is supported, and the requested one when that is supported |
| Server.McpServer.ProcessLine | crates/blobyard-mcp/src/server.rs:34-55 | one line moves the connection and answers as its classification says |
| Server.McpServer.ProcessRequest | crates/blobyard-mcp/src/server.rs:57-75 | the checks on version, method and identifier, in order |
| Server.McpServer.Request | crates/blobyard-mcp/src/server.rs:77-96 | dispatch, refusing everything but initialize and ping before initialisation |
| Server.McpServer.Initialize | crates/blobyard-mcp/src/server.rs:98-138 | initialisation succeeds once and needs a protocol version |
| Server.McpServer.CallTool | crates/blobyard-mcp/src/server.rs:140-184 | at most one backend call, and only redacted output in the reply |
| Server.McpServer.ReadResource | crates/blobyard-mcp/src/server.rs:186-219 | at most one backend call, the one that `ResourceCallExact` gives for the URI, and only redacted output in the reply |
| Server.ServeStream | crates/blobyard-mcp/src/server.rs:236-252 | the loop writes exactly the transcript of the lines |
| ServerRuns.InitializedExactly | crates/blobyard-mcp/src/server.rs:98-119 | after any run the connection is initialised if and only if some line was a well-formed initialize |
| ServerRuns.OpeningReply | crates/blobyard-mcp/src/server.rs:98-138 | the first well-formed initialize of a run succeeds with a supported version, every later one is refused |
| ServerRuns.CallsExactly | crates/blobyard-mcp/src/server.rs:140-219 | the backend receives exactly the calls asked for by lines after the first well-formed initialize, in order |
| ServerRuns.NoCallBeforeOpening | crates/blobyard-mcp/src/server.rs:77-88 | without a well-formed initialize the backend is never reached |
| ServerRuns.EveryCallAuthorised | crates/blobyard-mcp/src/context.rs:4-28 | every backend call of a run is what some line parsed to, with its safeguard and no foreign key, or the read that `ResourceCallExact` writes out for the URI of a resource request |
| ServerRuns.ResourceCallExact | crates/blobyard-mcp/src/context.rs:4-28 | for every nonempty project without a slash, its `objects` URI is `list_objects` with that project, no workspace and no versions, its `retention` URI is `get_retention` in the same scope, the identity URI is `whoami` without scope, and every other text is no resource |
| ServerRuns.SafeguardedCall | crates/blobyard-mcp/src/admin_call.rs:299-306 | in any run a call whose parser demands a safeguard reaches the backend only if the line it was parsed from carried it as the boolean true |
| ServerRuns.DestructiveCall | crates/blobyard-mcp/src/admin_catalog.rs:267-278 | in any run a call to a destructive tool carried `confirm` as the boolean true, except for the twelve of the main catalogue that do not ask for it |
| ServerRuns.UnconfirmedDeletion | crates/blobyard-mcp/src/tool_call.rs:238-241 | with every backend there is a run that deletes an object, which the catalogue calls destructive, without `confirm` |
| ServerRuns.ReplyDiscipline | crates/blobyard-mcp/src/server.rs:57-75 | a notification changes nothing and gets no reply; every other line gets one reply with its identifier and exactly one of result or error, which is a response of section 5 of JSON-RPC 2.0 if and only if the line is not an ill-formed object with a boolean, array or object identifier |
| ServerRuns.IllegalIdEchoed | crates/blobyard-mcp/src/server.rs:58-65 | an object holding only an empty array as identifier is answered with that array |
| ServerRuns.TranscriptAnswers | crates/blobyard-mcp/src/server.rs:236-252 | the transcript of any run answers the non-notification lines one for one, in order, each a conforming response exactly under that condition |
| ServerRuns.OutputRedacted | crates/blobyard-mcp/src/server.rs:140-219 | what a tool call or a resource read shows is a fixed point of redaction, as data and as rendered text: for what the call issued on success, for nothing on failure and for resources |
| ServerRuns.TranscriptNoninterference | crates/blobyard-mcp/src/server.rs:140-252 | two backends that differ only in hidden data give the same transcript and the same calls on every run |
| ServerReplies.MalformedReply | crates/blobyard-mcp/src/server.rs:34-75 | in every state, what text that is not JSON, JSON that is not an object, an object of another version or without a method, and a request with an ill-typed identifier are answered: code, message, identifier and data |
| ServerReplies.MethodReply | crates/blobyard-mcp/src/server.rs:77-96 | a ping is answered in every state, everything but initialize is refused before initialisation, and an unknown method is named in its error |
| ServerReplies.ListingReply | crates/blobyard-mcp/src/server.rs:82-90 | the four listings serve the documents they are named after |
| ServerReplies.UnopenedReply | crates/blobyard-mcp/src/server.rs:98-113 | initialize without a version, or on an initialised connection, is refused with its code |
| ServerReplies.PromptExact | crates/blobyard-mcp/src/server.rs:265-281 | a prompt is served if and only if it is named and the host has it for the project in the arguments; otherwise the parameters or the name is refused |
| ServerReplies.RefusedToolReply | crates/blobyard-mcp/src/server.rs:140-170 | a tool request without object parameters, without a name or refused by the parser is answered with the reason |
| ServerReplies.RefusedReadReply | crates/blobyard-mcp/src/server.rs:186-201 | a read without a URI is refused, and one whose URI stands for no call is not found |
| ServerReplies.ToolReply | crates/blobyard-mcp/src/server.rs:171-184 | the whole reply to a tool call: sanitised output as text and as data, or the sanitised error marked as one |
| ServerReplies.ReadReply | crates/blobyard-mcp/src/server.rs:202-219 | the whole reply to a read: one JSON document under the URI that was asked for, or the backend error |
| ServerReplies.ShownExactly | crates/blobyard-mcp/src/server.rs:170-176 | after any run, a position of what a tool returned is in the reply if and only if no field above it is hidden from that tool, and then holds the marker, the fresh invitation or what was carried over |
| ServerReplies.LinksHidden | crates/blobyard-mcp/src/sanitize.rs:15-27 | after any run and whatever the backend answers, a share link stands in no answer but that of `create_share`, a preview or inbox link in none but its own tool, and a secret or transfer URL in none at all: such a key holds the marker |
| Profile.LocalMachine.AtomicWrite | crates/blobyard-cli/src/config_profile_write.rs:99-116 | the config becomes exactly the new text or stays as it was, with the exact success condition |
| Profile.LocalMachine.WriteSelfHostedProfile | crates/blobyard-cli/src/config_profile_write.rs:9-34 | success extends the config by one block, failure leaves it |
| Profile.LocalMachine.SaveToFile | crates/blobyard-cli/src/token_store.rs:146-178 | step by step: a failed save of a new token has stored it if and only if every step up to the move worked and the last one failed |
| Profile.LocalMachine.Save | crates/blobyard-cli/src/token_store.rs:98-102 | the selected store's save, with its outcome and the new tokens |
| Profile.SlotsApart | crates/blobyard-cli/src/token_store.rs:70-76 | no two profiles share a platform-store entry or a credential file |
| Profile.LocalMachine.Prepare | crates/blobyard-cli/src/profile_add.rs:78-139 | the steps, early returns and compensation have the effect of `Command`, whose outcome `OutcomeExact` and whose token slot `PlaceAfter` give by fault names |
| Profile.AllOrNothing | crates/blobyard-cli/src/profile_add.rs:78-139 | success stores the request's token in its own slot and its block after the old text and separator, within 65536 bytes; failure at any step leaves the config alone; no command touches another profile's token |
| ProfileOutcomes.OutcomeExact | crates/blobyard-cli/src/profile_add.rs:78-124 | for every machine, fault set and request the command answers with the code of the first of fifteen written-out checks that does not pass, and succeeds if and only if all pass |
| Profile.FaultsExact | crates/blobyard-cli/src/token_store.rs:98-178 | where the token is kept and which faults decide that it is put there, that the save works and that the removal works |
| Profile.PlaceAfter | crates/blobyard-cli/src/profile_add.rs:111-123 | what the place of a profile holds after any command: unchanged unless the token was put there, empty if the save worked, the command failed and the removal worked, and the token otherwise |
| Profile.CompensatedExactly | crates/blobyard-cli/src/profile_add.rs:120-122 | when the save worked and the command fails, the slot is empty if and only if `KeyringDelete` is no fault (platform store) or `TokenRemove` is none (file store) |
| Profile.RefusedAndRemoved | crates/blobyard-cli/src/token_store.rs:155-161 | a first profile without a platform store whose config write fails leaves nothing behind |
| Profile.TokenLeftBehind | crates/blobyard-cli/src/profile_add.rs:112-123 | a failed command leaves the new token if and only if the file store put it in place and could not make the path private, or the platform store saved it and its delete failed, or the file store put it in place and its removal failed; each named by its fault |
| Profile.RefusedButStored | crates/blobyard-cli/src/token_store.rs:146-153 | a request and a set of failing steps for which the command is refused and its token stays |
| Profile.RestoredExactly | crates/blobyard-cli/src/profile_add.rs:112-123 | the exact condition, by fault names, under which a failed command restores the machine |
| ProfileRuns.WrittenBlocks | crates/blobyard-cli/src/config_profile_write.rs:25-32 | successive writes leave the old text, its separator and the blocks one blank line apart |
| ProfileRuns.CommandAppends | crates/blobyard-cli/src/config_profile_write.rs:9-34 | a successful command adds the block of its own profile to such a run |
| ProfileRuns.BlankLineBeforeBlock | crates/blobyard-cli/src/config_profile_write.rs:25-31 | whatever the existing text, the separator gives a blank line with as few newlines as possible |
| ProfileRuns.ConfigExactly | crates/blobyard-cli/src/profile_add.rs:78-139 | after any run of commands with any failures, for every reader and from any machine: the config is the text it started with, separator and exactly the blocks of the successful commands, within 65536 bytes, none of them for the reserved profile |
| ProfileShapes.AnyRun | crates/blobyard-cli/src/config_profile_write.rs:51-68 | after any run from a config whose `profiles` is not an array of tables: no profile is added twice or was declared before, and the slot of every profile added holds exactly the token of the command that added it |
| ProfileShapes.ProtectedRun | crates/blobyard-cli/src/config_profile_write.rs:51-68 | the same for one profile, also when `profiles` is an array of tables whose last element already defines it |
| ProfileShapes.TwiceExactly | crates/blobyard-cli/src/config_profile_write.rs:51-68 | some run adds a profile twice if and only if `profiles` starts as an array of tables whose last element does not define it and two of its blocks fit |
| ProfileShapes.LosesExactly | crates/blobyard-cli/src/profile_add.rs:111-123 | some run loses the token of a profile it added if and only if `profiles` starts as an array of tables whose last element does not define it and one of its blocks fits |
| ProfileShapes.SafeExactly | crates/blobyard-cli/src/config_profile_write.rs:51-68 | every run keeps every profile it adds, once and with its token, if and only if `profiles` does not start as such an array with room for a block |
| ProfileShapes.AddedTwice | crates/blobyard-cli/src/config_profile_write.rs:51-68 | from the config `[[profiles]]`, adding `local` twice succeeds twice: its block is there twice, the config no longer parses and only the second token is left |
| ProfileShapes.FailedWrite | crates/blobyard-cli/src/profile_add.rs:120-122 | a command whose config write fails takes its token back from either store |
| ProfileShapes.RunGrows | crates/blobyard-cli/src/config_profile_write.rs:51-68 | what every run makes of `profiles`: a table grows by the names added, an array of tables stays one, anything else becomes unreadable |
| ProfileRuns.SlotExactly | crates/blobyard-cli/src/profile_add.rs:112-123 | after any run every slot holds what the last command that stored there left, or what it held before if none did |
| ProfileShapes.HeaderReaderLawful | crates/blobyard-cli/src/config_profile_write.rs:51-68 | a reader of `profiles` headers meets the law for appended blocks that these results take from the TOML library, and sees an array of tables in `[[profiles]]` |

## Left out

- Sanitize.SanitizeValue: rewrites values instead of mutating in place; the tree has one owner, so aliasing does not arise.
- ProfileShapes.AnyRun: like the other results of that module, takes from the TOML library what one more `[profiles.NAME]` block makes of each shape `profiles` can have (`LawAt`), and takes the API address and the origin, both serialised URLs, to hold no quote, backslash or line break; TOML escaping is not modelled. `ConfigExactly` needs neither.
- Profile.LocalMachine.Save: takes the platform store's own save to store the token or fail without storing it; file systems that fold case are not modelled.
- TOML, JSON and URL text, Unicode tables beyond UTF-8 and control characters: parameters or predicates.
- Input and output failures of the server's streams, asynchronous scheduling and cancellation.
- Static documents: the text of the tool catalogue, prompts, resource lists and server metadata are constants of the host.
- Tool calls are one record with named arguments instead of one variant for each tool; the set of tools and arguments is the same.
- SQLite repositories, transfers, sessions, sharing and the HTTP service.
- ToolCatalogue.AcceptedAsAdvertised: an integer of the schema is a whole number literal; titles, descriptions, output schemas and hints other than the destructive one are left out.
- Endpoint tables and string forms of enumerations: finite tables that would only add easy members.
