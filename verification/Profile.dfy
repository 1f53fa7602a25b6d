/** Adding a self-hosted profile: a token store, a config file, and a failure possible at every step. */
module Profile {
  import opened Text
  import opened BlobyardUri

  const MAXIMUM_CONFIG := 65536

  datatype Code = InvalidRequest | Conflict | ProviderUnavailable | InternalError

  datatype ConfigFile = Missing | NotAFile | Contents(text: string)

  /** One name for each step that can fail: reading the config twice, writing it, opening the platform
      store and using it, and the file store's own steps. */
  datatype Fault =
    | FirstRead | SecondRead
    | NoParent | CreateDirectory | CreateTemporary | Write | Flush | Sync | MakePrivate | Persist
    | NoKeyring | KeyringSave | KeyringDelete
    | TokenNoParent | TokenDirectory | TokenTemporary | TokenPrivateTemporary | TokenWrite | TokenFlush | TokenSync
    | TokenPersist | TokenPrivatePath
    | TokenRemove

  type Faults = set<Fault>

  const WRITE_STEPS: Faults :=
    {NoParent, CreateDirectory, CreateTemporary, Write, Flush, Sync, MakePrivate, Persist}

  /** The file store's steps up to the one that puts the token in place. */
  const STORING_STEPS: Faults :=
    {TokenNoParent, TokenDirectory, TokenTemporary, TokenPrivateTemporary, TokenWrite, TokenFlush, TokenSync,
     TokenPersist}

  /** What the command is given and what the service answers. */
  datatype Request = Request(
    name: string,
    api: Result<string, Code>,
    transport: Result<(), Code>,
    response: Result<Response, Code>)

  /** `origin` is the normalised origin, if the returned one is valid. */
  datatype Response = Response(workspace: string, origin: Option<string>, token: string)

  /** What a TOML document has under `profiles`: nothing, a table with these keys, an array of tables whose
      last element already defines the tables `taken`, or something a header cannot extend. */
  datatype Profiles = Absent | Table(names: set<string>) | TableArray(taken: set<string>) | Other

  /** What a document has under `profiles`, or `None` when it does not parse. */
  type TomlReader = string -> Option<Profiles>

  // ----- where a profile's token is kept

  /** An entry of the platform store, or a file beside the config. */
  datatype Slot = KeyringEntry(account: string) | CredentialFile(name: string)

  function Account(profile: string): string
  {
    if profile == "cloud" then "refresh-token" else "refresh-token:" + profile
  }

  function CredentialName(profile: string): string
  {
    if profile == "cloud" then "credentials" else "credentials." + profile
  }

  /** `select_token_store`: the file is the fallback. */
  function SlotFor(keyring: bool, profile: string): Slot
  {
    if keyring then KeyringEntry(Account(profile)) else CredentialFile(CredentialName(profile))
  }

  /** No two profiles share a slot. */
  lemma SlotsApart(a: bool, p: string, b: bool, q: string)
    requires SlotFor(a, p) == SlotFor(b, q)
    ensures a == b && p == q
  {
    var account, name := "refresh-token:", "credentials.";
    if p != "cloud" {
      assert p == (account + p)[|account|..] && p == (name + p)[|name|..];
    }
    if q != "cloud" {
      assert q == (account + q)[|account|..] && q == (name + q)[|name|..];
    }
  }

  type Tokens = map<Slot, string>

  datatype Machine = Machine(config: ConfigFile, tokens: Tokens)

  function TokenIn(tokens: Tokens, slot: Slot): Option<string>
  {
    if slot in tokens then Some(tokens[slot]) else None
  }

  // ----- text

  function TomlString(s: string): string { "\"" + s + "\"" }

  datatype Entry = Entry(profile: string, api: string, origin: string, workspace: string)

  function Block(e: Entry): string
  {
    "[profiles." + e.profile + "]\napi_url = " + TomlString(e.api) + "\nweb_yard_origin = " + TomlString(e.origin) +
    "\nworkspace = " + TomlString(e.workspace) + "\n"
  }

  predicate EndsWith(s: string, suffix: string) { |suffix| <= |s| && s[|s| - |suffix|..] == suffix }

  function Separator(existing: string): string
  {
    if existing == "" || EndsWith(existing, "\n\n") then ""
    else if EndsWith(existing, "\n") then "\n"
    else "\n\n"
  }

  function Extended(existing: string, e: Entry): string { existing + Separator(existing) + Block(e) }

  // ----- what the command does, as a function of the machine and the faults

  function ReadExisting(config: ConfigFile, fails: bool): Result<string, Code>
  {
    if fails then Err(InternalError)
    else match config
      case Missing => Ok("")
      case NotAFile => Err(InvalidRequest)
      case Contents(text) => if |text| <= MAXIMUM_CONFIG then Ok(text) else Err(InvalidRequest)
  }

  /** `reject_existing_profile`: only a table is searched for the name. */
  function RejectExisting(toml: TomlReader, source: string, profile: string): Result<(), Code>
  {
    if source == "" then Ok(())
    else match toml(source)
      case None => Err(InvalidRequest)
      case Some(profiles) => if profiles.Table? && profile in profiles.names then Err(Conflict) else Ok(())
  }

  predicate AtomicWriteFails(config: ConfigFile, faults: Faults)
  {
    faults * WRITE_STEPS != {} || config.NotAFile?
  }

  function WriteResult(toml: TomlReader, config: ConfigFile, faults: Faults, e: Entry): Result<string, Code>
  {
    match ReadExisting(config, SecondRead in faults)
    case Err(code) => Err(code)
    case Ok(existing) =>
      match RejectExisting(toml, existing, e.profile)
      case Err(code) => Err(code)
      case Ok(_) =>
        if |Extended(existing, e)| > MAXIMUM_CONFIG then Err(InvalidRequest)
        else if AtomicWriteFails(config, faults) then Err(InternalError)
        else Ok(Extended(existing, e))
  }

  /** Everything that happens before the token is saved. */
  function Prepared(toml: TomlReader, config: ConfigFile, faults: Faults, request: Request)
    : Result<(Entry, string), Code>
  {
    if !ValidSlug(request.name) then Err(InvalidRequest)
    else if request.name == "cloud" then Err(Conflict)
    else match request.api
      case Err(code) => Err(code)
      case Ok(api) =>
        match ReadExisting(config, FirstRead in faults)
        case Err(code) => Err(code)
        case Ok(existing) =>
          match RejectExisting(toml, existing, request.name)
          case Err(code) => Err(code)
          case Ok(_) => Exchanged(request, api)
  }

  function Exchanged(request: Request, api: string): Result<(Entry, string), Code>
  {
    match (request.transport, request.response)
    case (Err(code), _) => Err(code)
    case (_, Err(code)) => Err(code)
    case (Ok(_), Ok(response)) =>
      if !ValidSlug(response.workspace) || response.origin.None? then Err(ProviderUnavailable)
      else Ok((Entry(request.name, api, response.origin.value, response.workspace), response.token))
  }

  function SlotOf(faults: Faults, request: Request): Slot { SlotFor(NoKeyring !in faults, request.name) }

  /** The new token is in place when `save` returns, however it returns. */
  predicate Stores(slot: Slot, faults: Faults)
  {
    match slot
    case KeyringEntry(_) => KeyringSave !in faults
    case CredentialFile(_) => faults !! STORING_STEPS
  }

  predicate SaveFails(slot: Slot, faults: Faults)
  {
    match slot
    case KeyringEntry(_) => KeyringSave in faults
    case CredentialFile(_) => !(faults !! STORING_STEPS) || TokenPrivatePath in faults
  }

  predicate DeleteFails(slot: Slot, faults: Faults)
  {
    if slot.KeyringEntry? then KeyringDelete in faults else TokenRemove in faults
  }

  function Command(toml: TomlReader, m: Machine, faults: Faults, request: Request): (Machine, Result<(), Code>)
  {
    match Prepared(toml, m.config, faults, request)
    case Err(code) => (m, Err(code))
    case Ok((entry, token)) =>
      var slot := SlotOf(faults, request);
      var stored := if Stores(slot, faults) then m.tokens[slot := token] else m.tokens;
      if SaveFails(slot, faults) then (m.(tokens := stored), Err(InternalError))
      else match WriteResult(toml, m.config, faults, entry)
        case Ok(text) => (Machine(Contents(text), stored), Ok(()))
        case Err(code) => (m.(tokens := if DeleteFails(slot, faults) then stored else stored - {slot}), Err(code))
  }

  // ----- the command step by step

  class LocalMachine {
    var config: ConfigFile
    var tokens: Tokens

    function Now(): Machine
      reads this
    {
      Machine(config, tokens)
    }

    constructor (m: Machine)
      ensures Now() == m
    {
      config, tokens := m.config, m.tokens;
    }

    /** `atomic_write_with`: a temporary file is built up and only the last step touches the config. */
    method AtomicWrite(source: string, faults: Faults) returns (r: Result<(), Code>)
      modifies this`config
      ensures r.Ok? <==> |source| <= MAXIMUM_CONFIG && !AtomicWriteFails(old(config), faults)
      ensures r.Ok? ==> r == Ok(()) && config == Contents(source)
      ensures r.Err? ==> config == old(config)
      ensures r.Err? ==> r.error == if |source| > MAXIMUM_CONFIG then InvalidRequest else InternalError
    {
      StepsFail(faults);
      if |source| > MAXIMUM_CONFIG { return Err(InvalidRequest); }
      if NoParent in faults { return Err(InternalError); }
      if CreateDirectory in faults { return Err(InternalError); }
      if CreateTemporary in faults { return Err(InternalError); }
      var temporary := "";
      if Write in faults { return Err(InternalError); }
      temporary := temporary + source;
      if Flush in faults { return Err(InternalError); }
      if Sync in faults { return Err(InternalError); }
      if MakePrivate in faults { return Err(InternalError); }
      if Persist in faults || config.NotAFile? { return Err(InternalError); }
      config := Contents(temporary);
      return Ok(());
    }

    method WriteSelfHostedProfile(toml: TomlReader, faults: Faults, e: Entry) returns (r: Result<(), Code>)
      modifies this`config
      ensures match WriteResult(toml, old(config), faults, e)
              case Ok(text) => r == Ok(()) && config == Contents(text)
              case Err(code) => r == Err(code) && config == old(config)
    {
      hide AtomicWriteFails;
      var existing := ReadExisting(config, SecondRead in faults);
      if existing.Err? { return Err(existing.error); }
      var unused := RejectExisting(toml, existing.value, e.profile);
      if unused.Err? { return unused; }
      r := AtomicWrite(existing.value + Separator(existing.value) + Block(e), faults);
    }

    /** `FileTokenStore::save`: the token is written to a private temporary file, moved into place and
        only then made private again at its path. */
    method SaveToFile(slot: Slot, value: string, faults: Faults) returns (r: Result<(), Code>)
      requires slot.CredentialFile?
      modifies this`tokens
      ensures r == if SaveFails(slot, faults) then Err(InternalError) else Ok(())
      ensures tokens == if Stores(slot, faults) then old(tokens)[slot := value] else old(tokens)
      ensures r.Err? && TokenIn(old(tokens), slot) != Some(value) ==>
                (TokenIn(tokens, slot) == Some(value) <==> faults !! STORING_STEPS && TokenPrivatePath in faults)
    {
      if TokenNoParent in faults { return Err(InternalError); }
      if TokenDirectory in faults { return Err(InternalError); }
      if TokenTemporary in faults { return Err(InternalError); }
      var temporary := "";
      if TokenPrivateTemporary in faults { return Err(InternalError); }
      if TokenWrite in faults { return Err(InternalError); }
      temporary := temporary + value;
      assert temporary == value;
      if TokenFlush in faults { return Err(InternalError); }
      if TokenSync in faults { return Err(InternalError); }
      if TokenPersist in faults { return Err(InternalError); }
      tokens := tokens[slot := temporary];
      if TokenPrivatePath in faults { return Err(InternalError); }
      return Ok(());
    }

    method Save(slot: Slot, value: string, faults: Faults) returns (r: Result<(), Code>)
      modifies this`tokens
      ensures r == if SaveFails(slot, faults) then Err(InternalError) else Ok(())
      ensures tokens == if Stores(slot, faults) then old(tokens)[slot := value] else old(tokens)
    {
      hide STORING_STEPS;
      match slot {
        case KeyringEntry(_) =>
          if KeyringSave in faults { return Err(InternalError); }
          tokens := tokens[slot := value];
          return Ok(());
        case CredentialFile(_) =>
          r := SaveToFile(slot, value, faults);
      }
    }

    /** A slot that is already empty counts as deleted. */
    method Delete(slot: Slot, faults: Faults)
      modifies this`tokens
      ensures tokens == if DeleteFails(slot, faults) then old(tokens) else old(tokens) - {slot}
    {
      if slot.KeyringEntry? && KeyringDelete in faults { return; }
      if slot.CredentialFile? && TokenRemove in faults { return; }
      tokens := tokens - {slot};
    }

    /** `prepare`: every early return leaves the machine as it was; a failed write is compensated by
        deleting the token, and whether that works is ignored. */
    method Prepare(toml: TomlReader, faults: Faults, request: Request) returns (r: Result<(), Code>)
      modifies this
      ensures (Now(), r) == Command(toml, old(Now()), faults, request)
    {
      hide ValidSlug, Extended, Block, Stores, SaveFails, DeleteFails, AtomicWriteFails;
      if !ValidSlug(request.name) { return Err(InvalidRequest); }
      if request.name == "cloud" { return Err(Conflict); }
      if request.api.Err? { return Err(request.api.error); }
      var existing := ReadExisting(config, FirstRead in faults);
      if existing.Err? { return Err(existing.error); }
      var unused := RejectExisting(toml, existing.value, request.name);
      if unused.Err? { return unused; }
      if request.transport.Err? { return request.transport; }
      if request.response.Err? { return Err(request.response.error); }
      var response := request.response.value;
      if !ValidSlug(response.workspace) { return Err(ProviderUnavailable); }
      if response.origin.None? { return Err(ProviderUnavailable); }
      var slot := SlotOf(faults, request);
      var saved := Save(slot, response.token, faults);
      if saved.Err? { return saved; }
      var entry := Entry(request.name, request.api.value, response.origin.value, response.workspace);
      r := WriteSelfHostedProfile(toml, faults, entry);
      if r.Err? { Delete(slot, faults); }
    }
  }

  lemma StepsFail(faults: Faults)
    ensures faults * WRITE_STEPS == {} <==> forall step | step in WRITE_STEPS :: step !in faults
  {
    if step :| step in WRITE_STEPS && step in faults { assert step in faults * WRITE_STEPS; }
  }

  // ----- all or nothing

  /** The text of a readable config. */
  function TextOf(config: ConfigFile): string { if config.Contents? then config.text else "" }

  /** Everything the request brings about the profile is there and acceptable. */
  predicate Complete(request: Request)
  {
    && ValidSlug(request.name) && request.name != "cloud"
    && request.api.Ok? && request.transport.Ok? && request.response.Ok?
    && ValidSlug(request.response.value.workspace) && request.response.value.origin.Some?
  }

  /** The profile a request asks for. */
  function EntryOf(request: Request): Entry
    requires Complete(request)
  {
    Entry(request.name, request.api.value, request.response.value.origin.value, request.response.value.workspace)
  }

  /** The save was reached. */
  predicate Reached(toml: TomlReader, m: Machine, faults: Faults, request: Request)
  {
    Prepared(toml, m.config, faults, request).Ok?
  }

  lemma ReachedIsComplete(toml: TomlReader, m: Machine, faults: Faults, request: Request)
    requires Reached(toml, m, faults, request)
    ensures Complete(request)
    ensures Prepared(toml, m.config, faults, request) == Ok((EntryOf(request), request.response.value.token))
  {
  }

  /** Success stores the request's token in its profile's slot and its block in the config, which becomes
      the old text, a separator and the block, within the limit. Failure, at whatever step, leaves the
      config alone. No command touches the slot of another profile. */
  lemma AllOrNothing(toml: TomlReader, m: Machine, faults: Faults, request: Request)
    ensures var (after, r) := Command(toml, m, faults, request);
            && (r.Err? ==> after.config == m.config)
            && (r.Ok? ==>
                  && Complete(request)
                  && after.tokens == m.tokens[SlotOf(faults, request) := request.response.value.token]
                  && after.config == Contents(TextOf(m.config) + Separator(TextOf(m.config)) + Block(EntryOf(request)))
                  && |after.config.text| <= MAXIMUM_CONFIG)
            && forall keyring, profile | profile != request.name ::
                 var slot := SlotFor(keyring, profile); TokenIn(after.tokens, slot) == TokenIn(m.tokens, slot)
  {
    hide Prepared, Block, Separator, EntryOf, Complete, Account, CredentialName, STORING_STEPS, ValidSlug;
    forall keyring, profile | profile != request.name ensures SlotFor(keyring, profile) != SlotOf(faults, request) {
      if SlotFor(keyring, profile) == SlotOf(faults, request) {
        SlotsApart(keyring, profile, NoKeyring !in faults, request.name);
      }
    }
    if Reached(toml, m, faults, request) { ReachedIsComplete(toml, m, faults, request); }
  }

  // ----- the faults that decide where the token ends up

  /** Where a profile's token is kept: under its account in the platform store, or in its own file when
      there is no such store. */
  function PlaceOf(faults: Faults, name: string): Slot
  {
    if NoKeyring in faults then CredentialFile(if name == "cloud" then "credentials" else "credentials." + name)
    else KeyringEntry(if name == "cloud" then "refresh-token" else "refresh-token:" + name)
  }

  /** The token is put in place: by the platform store, or by every step of the file store up to the move. */
  predicate PutInPlace(faults: Faults)
  {
    if NoKeyring !in faults then KeyringSave !in faults
    else
      && TokenNoParent !in faults && TokenDirectory !in faults && TokenTemporary !in faults
      && TokenPrivateTemporary !in faults && TokenWrite !in faults && TokenFlush !in faults && TokenSync !in faults
      && TokenPersist !in faults
  }

  /** The save reports success: the file store also has to make the path private after the move. */
  predicate SaveWorks(faults: Faults)
  {
    PutInPlace(faults) && (NoKeyring in faults ==> TokenPrivatePath !in faults)
  }

  predicate RemovalWorks(faults: Faults)
  {
    if NoKeyring !in faults then KeyringDelete !in faults else TokenRemove !in faults
  }

  lemma FaultsExact(faults: Faults, request: Request)
    ensures SlotOf(faults, request) == PlaceOf(faults, request.name)
    ensures var slot := SlotOf(faults, request);
            && (Stores(slot, faults) <==> PutInPlace(faults))
            && (SaveFails(slot, faults) <==> !SaveWorks(faults))
            && (DeleteFails(slot, faults) <==> !RemovalWorks(faults))
  {
  }

  /** What the command leaves in the place of its profile: nothing changes unless it is reached and the
      token put there; then it stays, unless the save worked, the config could not be written and the
      removal worked, which leaves the place empty. */
  lemma PlaceAfter(toml: TomlReader, m: Machine, faults: Faults, request: Request)
    ensures var (after, r) := Command(toml, m, faults, request);
            var place := PlaceOf(faults, request.name);
            TokenIn(after.tokens, place) ==
              if !Reached(toml, m, faults, request) || !PutInPlace(faults) then TokenIn(m.tokens, place)
              else if r.Err? && SaveWorks(faults) && RemovalWorks(faults) then None
              else Some(request.response.value.token)
  {
    hide Prepared, WriteResult, SlotOf, PlaceOf, Stores, SaveFails, DeleteFails, PutInPlace;
    FaultsExact(faults, request);
    if Reached(toml, m, faults, request) { ReachedIsComplete(toml, m, faults, request); }
  }

  /** When the save worked and the command still fails, the slot is empty exactly when the removal of that
      store works. */
  lemma CompensatedExactly(toml: TomlReader, m: Machine, faults: Faults, request: Request)
    requires Reached(toml, m, faults, request) && SaveWorks(faults) && Command(toml, m, faults, request).1.Err?
    ensures var tokens := Command(toml, m, faults, request).0.tokens;
            && (NoKeyring !in faults ==>
                  (KeyringEntry("refresh-token:" + request.name) !in tokens <==> KeyringDelete !in faults))
            && (NoKeyring in faults ==>
                  (CredentialFile("credentials." + request.name) !in tokens <==> TokenRemove !in faults))
  {
    hide Command, Prepared, PutInPlace;
    ReachedIsComplete(toml, m, faults, request);
    PlaceAfter(toml, m, faults, request);
  }

  /** A failed command leaves the new token behind exactly when the file store could put it in place but
      not make its path private, or when the save worked and the compensating removal did not. */
  lemma TokenLeftBehind(toml: TomlReader, m: Machine, faults: Faults, request: Request)
    requires Reached(toml, m, faults, request) && Command(toml, m, faults, request).1.Err?
    requires TokenIn(m.tokens, PlaceOf(faults, request.name)) != Some(request.response.value.token)
    ensures TokenIn(Command(toml, m, faults, request).0.tokens, PlaceOf(faults, request.name)) ==
              Some(request.response.value.token) <==>
              || (NoKeyring in faults && PutInPlace(faults) && TokenPrivatePath in faults)
              || (NoKeyring !in faults && KeyringSave !in faults && KeyringDelete in faults)
              || (NoKeyring in faults && PutInPlace(faults) && TokenRemove in faults)
  {
    hide Command, Prepared, PlaceOf;
    PlaceAfter(toml, m, faults, request);
  }

  /** A failed command restores the machine exactly when it never put a token in place, or there was none
      before and both the save and the removal worked, or the same token was there already and stays. */
  lemma RestoredExactly(toml: TomlReader, m: Machine, faults: Faults, request: Request)
    requires Command(toml, m, faults, request).1.Err?
    ensures var place := PlaceOf(faults, request.name);
            Command(toml, m, faults, request).0 == m <==>
              || !Reached(toml, m, faults, request)
              || !PutInPlace(faults)
              || (if SaveWorks(faults) && RemovalWorks(faults) then place !in m.tokens
                  else TokenIn(m.tokens, place) == Some(request.response.value.token))
  {
    hide Prepared, WriteResult, SlotOf, PlaceOf, Stores, SaveFails, DeleteFails, PutInPlace;
    var place := PlaceOf(faults, request.name);
    var after := Command(toml, m, faults, request).0;
    FaultsExact(faults, request);
    if Reached(toml, m, faults, request) {
      ReachedIsComplete(toml, m, faults, request);
      assert place !in m.tokens ==> m.tokens[place := request.response.value.token] - {place} == m.tokens;
    }
    assert after == m ==> TokenIn(after.tokens, place) == TokenIn(m.tokens, place);
  }

  const LOCAL := Request(
    "local", Ok("http://localhost:8787/v1"), Ok(()), Ok(Response("default", Some("http://localhost:8787"), "issued")))

  /** It happens: without a platform store, a first profile whose credential file cannot be made private
      once it is in place is refused, and its token stays. */
  lemma RefusedButStored(toml: TomlReader)
    ensures Command(toml, Machine(Missing, map[]), {NoKeyring, TokenPrivatePath}, LOCAL) ==
            (Machine(Missing, map[CredentialFile("credentials.local") := "issued"]), Err(InternalError))
  {
    hide ValidSlug;
    LocalIsComplete();
    assert "credentials." + "local" == "credentials.local";
    assert {NoKeyring, TokenPrivatePath} !! STORING_STEPS;
  }

  /** Without a platform store a first profile whose config cannot be written leaves no file behind. */
  lemma RefusedAndRemoved(toml: TomlReader)
    ensures Command(toml, Machine(Missing, map[]), {NoKeyring, Write}, LOCAL) ==
            (Machine(Missing, map[]), Err(InternalError))
  {
    hide ValidSlug, Extended;
    LocalIsComplete();
    LocalFits();
    assert Write in {NoKeyring, Write} * WRITE_STEPS;
    assert {NoKeyring, Write} !! STORING_STEPS;
    var slot := SlotOf({NoKeyring, Write}, LOCAL);
    var none: Tokens := map[];
    assert none[slot := "issued"] - {slot} == none;
  }

  lemma LocalFits()
    ensures var entry := Entry("local", "http://localhost:8787/v1", "http://localhost:8787", "default");
            |Extended("", entry)| <= MAXIMUM_CONFIG
  {
  }

  lemma LocalIsComplete()
    ensures ValidSlug("local") && ValidSlug("default")
  {
  }
}
