/** When the command succeeds and with which error it fails, check by check. */
module ProfileOutcomes {
  import opened Text
  import opened BlobyardUri
  import opened UriGrammar
  import opened Profile

  /** The config can be read: it is missing, or a file of at most 65536 bytes. */
  predicate Readable(config: ConfigFile)
  {
    config.Missing? || (config.Contents? && |config.text| <= 65536)
  }

  /** The text is empty or valid TOML. */
  predicate Parses(toml: TomlReader, text: string)
  {
    text == "" || toml(text).Some?
  }

  /** A table `profiles` already has this name. */
  predicate Taken(toml: TomlReader, text: string, name: string)
  {
    text != "" && match toml(text) case Some(Table(names)) => name in names case _ => false
  }

  /** No step of the atomic write fails. */
  predicate WriteWorks(config: ConfigFile, faults: Faults)
  {
    && NoParent !in faults && CreateDirectory !in faults && CreateTemporary !in faults && Write !in faults
    && Flush !in faults && Sync !in faults && MakePrivate !in faults && Persist !in faults && !config.NotAFile?
  }

  lemma WriteExact(config: ConfigFile, faults: Faults)
    ensures AtomicWriteFails(config, faults) <==> !WriteWorks(config, faults)
  {
    StepsFail(faults);
  }

  datatype Check = Check(passes: bool, code: Code)

  /** The first check from this position on that does not pass. */
  function FailureFrom(checks: seq<Check>, i: nat): Result<(), Code>
    decreases |checks| - i
  {
    if i >= |checks| then Ok(())
    else if !checks[i].passes then Err(checks[i].code)
    else FailureFrom(checks, i + 1)
  }

  function FirstFailure(checks: seq<Check>): Result<(), Code> { FailureFrom(checks, 0) }

  function CodeOf<T>(r: Result<T, Code>): Code
  {
    match r case Ok(_) => InternalError case Err(code) => code
  }

  /** The checks before the token is saved, in order, each with the code it fails with. */
  ghost function ChecksBefore(toml: TomlReader, config: ConfigFile, faults: Faults, request: Request): seq<Check>
  {
    var text := TextOf(config);
    [ Check(SlugText(request.name), InvalidRequest),
      Check(request.name != "cloud", Conflict),
      Check(request.api.Ok?, CodeOf(request.api)),
      Check(FirstRead !in faults, InternalError),
      Check(Readable(config), InvalidRequest),
      Check(Parses(toml, text), InvalidRequest),
      Check(!Taken(toml, text, request.name), Conflict),
      Check(request.transport.Ok?, CodeOf(request.transport)),
      Check(request.response.Ok?, CodeOf(request.response)),
      Check(request.response.Ok? ==> SlugText(request.response.value.workspace), ProviderUnavailable),
      Check(request.response.Ok? ==> request.response.value.origin.Some?, ProviderUnavailable) ]
  }

  /** Those from the save on, for a request that passed the others. */
  ghost function ChecksAfter(config: ConfigFile, faults: Faults, entry: Entry): seq<Check>
  {
    [ Check(SaveWorks(faults), InternalError),
      Check(SecondRead !in faults, InternalError),
      Check(|TextOf(config) + Separator(TextOf(config)) + Block(entry)| <= 65536, InvalidRequest),
      Check(WriteWorks(config, faults), InternalError) ]
  }

  lemma {:induction false} FailureFromExact(checks: seq<Check>, from: nat)
    ensures FailureFrom(checks, from).Ok? <==> forall i | from <= i < |checks| :: checks[i].passes
    decreases |checks| - from
  {
    if from < |checks| { FailureFromExact(checks, from + 1); }
  }

  /** One check at a time. */
  lemma NextCheck(checks: seq<Check>, i: nat)
    ensures FailureFrom(checks, i) ==
            if i >= |checks| then Ok(())
            else if !checks[i].passes then Err(checks[i].code)
            else FailureFrom(checks, i + 1)
  {
  }

  lemma FourChecks(checks: seq<Check>, i: nat)
    requires i + 4 <= |checks|
    ensures FailureFrom(checks, i) ==
            if !checks[i].passes then Err(checks[i].code)
            else if !checks[i + 1].passes then Err(checks[i + 1].code)
            else if !checks[i + 2].passes then Err(checks[i + 2].code)
            else if !checks[i + 3].passes then Err(checks[i + 3].code)
            else FailureFrom(checks, i + 4)
  {
    hide FailureFrom;
    NextCheck(checks, i);
    NextCheck(checks, i + 1);
    NextCheck(checks, i + 2);
    NextCheck(checks, i + 3);
  }

  lemma ReadChecks(toml: TomlReader, config: ConfigFile, fails: bool, name: string)
    ensures ReadExisting(config, fails).Ok? <==> !fails && Readable(config)
    ensures ReadExisting(config, fails).Ok? ==> ReadExisting(config, fails).value == TextOf(config)
    ensures ReadExisting(config, fails).Err? ==>
              ReadExisting(config, fails).error == if fails then InternalError else InvalidRequest
    ensures var text := TextOf(config);
            RejectExisting(toml, text, name) ==
              if !Parses(toml, text) then Err(InvalidRequest)
              else if Taken(toml, text, name) then Err(Conflict) else Ok(())
  {
  }

  /** The command gets as far as saving the token exactly when the first checks pass, and otherwise fails
      with the code of the first that does not. */
  lemma PreparedExact(toml: TomlReader, config: ConfigFile, faults: Faults, request: Request)
    ensures match Prepared(toml, config, faults, request)
            case Ok(_) => FirstFailure(ChecksBefore(toml, config, faults, request)) == Ok(())
            case Err(code) => FirstFailure(ChecksBefore(toml, config, faults, request)) == Err(code)
  {
    hide ValidSlug, SlugText, ReadExisting, RejectExisting, Readable, Parses, Taken, FailureFrom;
    SlugExact(request.name);
    if request.response.Ok? { SlugExact(request.response.value.workspace); }
    ReadChecks(toml, config, FirstRead in faults, request.name);
    var checks := ChecksBefore(toml, config, faults, request);
    FourChecks(checks, 0);
    FourChecks(checks, 4);
    NextCheck(checks, 8);
    NextCheck(checks, 9);
    NextCheck(checks, 10);
    NextCheck(checks, 11);
  }

  lemma WrittenExact(toml: TomlReader, config: ConfigFile, faults: Faults, entry: Entry)
    requires Readable(config) && Parses(toml, TextOf(config)) && !Taken(toml, TextOf(config), entry.profile)
    requires SaveWorks(faults)
    ensures match WriteResult(toml, config, faults, entry)
            case Ok(_) => FirstFailure(ChecksAfter(config, faults, entry)) == Ok(())
            case Err(code) => FirstFailure(ChecksAfter(config, faults, entry)) == Err(code)
  {
    hide ReadExisting, RejectExisting, Readable, Parses, Taken, FailureFrom, Separator, Block, AtomicWriteFails,
      WriteWorks;
    ReadChecks(toml, config, SecondRead in faults, entry.profile);
    WriteExact(config, faults);
    var checks := ChecksAfter(config, faults, entry);
    FourChecks(checks, 0);
    NextCheck(checks, 4);
  }

  /** Every check the command makes, in order. */
  ghost function Checks(toml: TomlReader, config: ConfigFile, faults: Faults, request: Request): seq<Check>
  {
    var before := ChecksBefore(toml, config, faults, request);
    if Complete(request) then before + ChecksAfter(config, faults, EntryOf(request)) else before
  }

  lemma {:induction false} LaterChecks(a: seq<Check>, b: seq<Check>, i: nat)
    ensures FailureFrom(a + b, |a| + i) == FailureFrom(b, i)
    decreases |b| - i
  {
    if i < |b| { LaterChecks(a, b, i + 1); }
  }

  lemma {:induction false} EarlierChecks(a: seq<Check>, b: seq<Check>, i: nat)
    requires i <= |a|
    ensures FailureFrom(a + b, i) == if FailureFrom(a, i).Ok? then FirstFailure(b) else FailureFrom(a, i)
    decreases |a| - i
  {
    if i < |a| { EarlierChecks(a, b, i + 1); } else { LaterChecks(a, b, 0); }
  }

  lemma PassedBefore(toml: TomlReader, config: ConfigFile, faults: Faults, request: Request)
    requires FirstFailure(ChecksBefore(toml, config, faults, request)) == Ok(())
    ensures Readable(config) && Parses(toml, TextOf(config)) && !Taken(toml, TextOf(config), request.name)
  {
    hide FailureFrom, SlugText, Readable, Parses, Taken;
    var checks := ChecksBefore(toml, config, faults, request);
    FailureFromExact(checks, 0);
    assert checks[4].passes && checks[5].passes && checks[6].passes;
  }

  /** For every machine, fault set and request: the command answers with the code of the first check that
      does not pass, and succeeds exactly when all of them do. */
  lemma OutcomeExact(toml: TomlReader, m: Machine, faults: Faults, request: Request)
    ensures Command(toml, m, faults, request).1 == FirstFailure(Checks(toml, m.config, faults, request))
    ensures Command(toml, m, faults, request).1.Ok? ==> Complete(request)
  {
    hide Prepared, WriteResult, ChecksBefore, SlotOf, Stores, SaveFails, DeleteFails, SaveWorks, Readable, Parses,
      Taken, Block, Separator, WriteWorks, Complete;
    PreparedExact(toml, m.config, faults, request);
    FaultsExact(faults, request);
    if Reached(toml, m, faults, request) {
      ReachedIsComplete(toml, m, faults, request);
      PassedBefore(toml, m.config, faults, request);
      var entry := EntryOf(request);
      EarlierChecks(ChecksBefore(toml, m.config, faults, request), ChecksAfter(m.config, faults, entry), 0);
      if SaveWorks(faults) { WrittenExact(toml, m.config, faults, entry); }
    } else if Complete(request) {
      EarlierChecks(ChecksBefore(toml, m.config, faults, request), ChecksAfter(m.config, faults, EntryOf(request)), 0);
    }
  }
}
