/** What the duplicate check sees of a config, and when a run adds a profile twice or loses its token. */
module ProfileShapes {
  import opened Text
  import opened BlobyardUri
  import opened Profile
  import opened ProfileRuns

  function Names(entries: seq<Entry>): set<string> { set i | 0 <= i < |entries| :: entries[i].profile }

  /** Needs no escaping inside a quoted TOML string on one line. */
  predicate PlainText(s: string) { '"' !in s && '\\' !in s && '\n' !in s }

  predicate PlainEntry(e: Entry)
  {
    ValidSlug(e.profile) && ValidSlug(e.workspace) && PlainText(e.api) && PlainText(e.origin)
  }

  /** Addresses in serialised form hold no quote, backslash or line break. */
  predicate PlainRequest(request: Request)
  {
    && (request.api.Ok? ==> PlainText(request.api.value))
    && (request.response.Ok? && request.response.value.origin.Some? ==> PlainText(request.response.value.origin.value))
  }

  predicate PlainAttempts(attempts: seq<Attempt>)
  {
    forall i | 0 <= i < |attempts| :: PlainRequest(attempts[i].request)
  }

  // ----- the library's law for a block after a text

  /** An empty text is not parsed. */
  function ShapeOf(toml: TomlReader, text: string): Option<Profiles>
  {
    if text == "" then Some(Absent) else toml(text)
  }

  /** What TOML makes of one more `[profiles.NAME]` block, by what `profiles` is so far: a table is created
      or extended, unless it is closed; after `[[profiles]]` the header opens a table inside the last
      element, once; anything else is refused. */
  predicate LawAt(toml: TomlReader, text: string, e: Entry)
  {
    var after := toml(Extended(text, e));
    match ShapeOf(toml, text)
    case None => true
    case Some(Absent) => after.None? || after == Some(Table({e.profile}))
    case Some(Table(names)) => e.profile in names || after.None? || after == Some(Table(names + {e.profile}))
    case Some(TableArray(taken)) => after == if e.profile in taken then None else Some(TableArray(taken + {e.profile}))
    case Some(Other) => after.None?
  }

  ghost predicate Lawful(toml: TomlReader)
  {
    forall text, e | PlainEntry(e) :: LawAt(toml, text, e)
  }

  ghost predicate Distinct(entries: seq<Entry>)
  {
    forall i, j | 0 <= i < j < |entries| :: entries[i].profile != entries[j].profile
  }

  /** What these entries, each added to a config that parsed, have made of a starting shape. */
  ghost predicate Grown(start: Option<Profiles>, now: Option<Profiles>, entries: seq<Entry>)
  {
    && (start.None? ==> entries == [])
    && (entries == [] ==> now == start)
    && (entries != [] && now.Some? ==>
          match start.value
          case Absent => now.value == Table(Names(entries))
          case Table(names) => now.value == Table(names + Names(entries))
          case TableArray(taken) =>
            now.value == TableArray(taken + Names(entries)) && taken !! Names(entries) && Distinct(entries)
          case Other => false)
  }

  lemma NamesAppend(entries: seq<Entry>, e: Entry)
    ensures Names(entries + [e]) == Names(entries) + {e.profile}
    ensures Distinct(entries) && e.profile !in Names(entries) ==> Distinct(entries + [e])
    ensures Names([]) == {} && Distinct([])
  {
    var longer := entries + [e];
    assert longer[|entries|] == e;
    forall name | name in Names(entries) ensures name in Names(longer) {
      var i :| 0 <= i < |entries| && entries[i].profile == name;
      assert longer[i].profile == name;
    }
    if e.profile !in Names(entries) {
      forall i | 0 <= i < |entries| ensures entries[i].profile != e.profile {
        assert entries[i].profile in Names(entries);
      }
    }
  }

  /** The duplicate check passes. */
  predicate Open(shape: Option<Profiles>, profile: string)
  {
    shape.Some? && (shape.value.Table? ==> profile !in shape.value.names)
  }

  lemma GrownStep(toml: TomlReader, start: Option<Profiles>, text: string, entries: seq<Entry>, e: Entry)
    requires LawAt(toml, text, e) && Grown(start, ShapeOf(toml, text), entries) && Open(ShapeOf(toml, text), e.profile)
    ensures Grown(start, ShapeOf(toml, Extended(text, e)), entries + [e])
  {
    hide Block, Distinct, Names, Separator;
    NamesAppend(entries, e);
    NotEmpty(text, e);
    var more := Names(entries) + {e.profile};
    assert entries == [] ==> more == {e.profile};
    match start.value {
      case Table(names) => assert names + Names(entries) + {e.profile} == names + more;
      case TableArray(taken) => assert taken + Names(entries) + {e.profile} == taken + more;
      case _ =>
    }
  }

  lemma ReachedIsOpen(toml: TomlReader, m: Machine, faults: Faults, request: Request)
    requires Reached(toml, m, faults, request)
    ensures Open(ShapeOf(toml, TextOf(m.config)), request.name)
  {
    hide ValidSlug;
  }

  lemma {:induction false} SuccessfulPlain(toml: TomlReader, m: Machine, attempts: seq<Attempt>)
    requires PlainAttempts(attempts)
    ensures PlainAttempts(Successful(toml, m, attempts))
  {
    hide Command, PlainRequest, Succeeds;
    if attempts != [] { SuccessfulPlain(toml, m, attempts[..|attempts| - 1]); }
  }

  lemma EntryFacts(request: Request)
    requires Complete(request)
    ensures EntryOf(request).profile == request.name
    ensures PlainRequest(request) ==> PlainEntry(EntryOf(request))
  {
  }

  lemma SucceedsReached(toml: TomlReader, m: Machine, attempt: Attempt)
    requires Succeeds(toml, m, attempt)
    ensures Reached(toml, m, attempt.faults, attempt.request)
  {
    hide Prepared, WriteResult;
  }

  /** What every run makes of the shape it started from. */
  lemma {:induction false} RunGrows(toml: TomlReader, m: Machine, attempts: seq<Attempt>)
    requires Lawful(toml) && PlainAttempts(attempts)
    ensures var after, done := RunAll(toml, m, attempts), Successful(toml, m, attempts);
            && AllComplete(done)
            && Grown(ShapeOf(toml, TextOf(m.config)), ShapeOf(toml, TextOf(after.config)), Entries(done))
  {
    hide Command, Complete, EntryOf, Block, Separator, Grown, PlainEntry, PlainRequest, LawAt, ShapeOf, Extended, Open;
    ConfigExactly(toml, m, attempts);
    if attempts == [] {
      GrownStart(ShapeOf(toml, TextOf(m.config)));
    } else {
      var n := |attempts| - 1;
      var before, done, next := RunAll(toml, m, attempts[..n]), Successful(toml, m, attempts[..n]), attempts[n];
      RunGrows(toml, m, attempts[..n]);
      AllOrNothing(toml, before, next.faults, next.request);
      if Succeeds(toml, before, next) {
        EntryFacts(next.request);
        SucceedsReached(toml, before, next);
        ReachedIsOpen(toml, before, next.faults, next.request);
        GrownStep(toml, ShapeOf(toml, TextOf(m.config)), TextOf(before.config), Entries(done), EntryOf(next.request));
        ExtendedText(TextOf(before.config), EntryOf(next.request));
        EntriesAppend(done, next);
      } else {
        assert done + [] == done;
      }
    }
  }

  lemma GrownStart(start: Option<Profiles>)
    ensures Grown(start, start, [])
  {
  }

  lemma ExtendedText(text: string, e: Entry)
    ensures Extended(text, e) == text + Separator(text) + Block(e)
  {
  }

  // ----- what the duplicate check protects

  /** The check cannot miss this profile: `profiles` is not an array of tables, or its last element already
      defines the name, so that adding it once makes the config unreadable. */
  predicate Protected(start: Option<Profiles>, profile: string)
  {
    start.Some? && start.value.TableArray? ==> profile in start.value.taken
  }

  lemma ReachedIsNew(start: Option<Profiles>, now: Option<Profiles>, entries: seq<Entry>, profile: string)
    requires Grown(start, now, entries) && Open(now, profile)
    ensures Protected(start, profile) ==> profile !in Names(entries)
    ensures start.Some? && start.value.Table? ==> profile !in start.value.names
  {
    hide Distinct;
    if entries == [] { NamesAppend(entries, Entry(profile, "", "", "")); }
  }

  /** The profile is added at most once, and not at all if a table declared it before. */
  ghost predicate AtMostOnce(done: seq<Attempt>, start: Option<Profiles>, profile: string)
  {
    && (forall i, j | 0 <= i < j < |done| :: done[i].request.name == profile ==> done[j].request.name != profile)
    && (start.Some? && start.value.Table? && profile in start.value.names ==>
          forall i | 0 <= i < |done| :: done[i].request.name != profile)
  }

  /** Every command that added the profile left its token in its slot. */
  ghost predicate Held(tokens: Tokens, done: seq<Attempt>, profile: string)
    requires AllComplete(done)
  {
    forall i | 0 <= i < |done| && done[i].request.name == profile ::
      TokenIn(tokens, SlotOf(done[i].faults, done[i].request)) == Some(done[i].request.response.value.token)
  }

  lemma NotAddedYet(done: seq<Attempt>, profile: string)
    requires AllComplete(done) && profile !in Names(Entries(done))
    ensures forall i | 0 <= i < |done| :: done[i].request.name != profile
  {
    hide Complete, EntryOf;
    forall i | 0 <= i < |done| ensures done[i].request.name != profile {
      EntryFacts(done[i].request);
      assert Entries(done)[i].profile in Names(Entries(done));
    }
  }

  /** One command on a machine where the profile is protected. */
  lemma ProtectedStep(
      toml: TomlReader, start: Option<Profiles>, now: Machine, done: seq<Attempt>, next: Attempt, profile: string)
    requires AllComplete(done) && Grown(start, ShapeOf(toml, TextOf(now.config)), Entries(done))
    requires Protected(start, profile) && AtMostOnce(done, start, profile) && Held(now.tokens, done, profile)
    ensures var after := Command(toml, now, next.faults, next.request).0;
            var longer := done + if Succeeds(toml, now, next) then [next] else [];
            AllComplete(longer) && AtMostOnce(longer, start, profile) && Held(after.tokens, longer, profile)
  {
    hide Command, Grown, Protected, ShapeOf, Open, Names, Entries, EntryOf, Complete, TextOf, SlotFor;
    AllOrNothing(toml, now, next.faults, next.request);
    if next.request.name == profile && Reached(toml, now, next.faults, next.request) {
      ReachedIsOpen(toml, now, next.faults, next.request);
      ReachedIsNew(start, ShapeOf(toml, TextOf(now.config)), Entries(done), profile);
      NotAddedYet(done, profile);
    } else if next.request.name == profile {
      NotReached(toml, now, next);
    }
    if Succeeds(toml, now, next) {
      SucceedsReached(toml, now, next);
    }
  }

  lemma NotReached(toml: TomlReader, m: Machine, attempt: Attempt)
    requires !Reached(toml, m, attempt.faults, attempt.request)
    ensures Command(toml, m, attempt.faults, attempt.request).0 == m && !Succeeds(toml, m, attempt)
  {
    hide Prepared;
  }

  /** In any run a protected profile is added at most once and keeps the token of the command that added it. */
  lemma {:induction false} ProtectedRun(toml: TomlReader, m: Machine, attempts: seq<Attempt>, profile: string)
    requires Lawful(toml) && PlainAttempts(attempts) && Protected(ShapeOf(toml, TextOf(m.config)), profile)
    ensures var after, done := RunAll(toml, m, attempts), Successful(toml, m, attempts);
            && AllComplete(done) && AtMostOnce(done, ShapeOf(toml, TextOf(m.config)), profile)
            && Held(after.tokens, done, profile)
  {
    hide Command, Lawful, PlainRequest, Protected, ShapeOf, AtMostOnce, Held, Grown, AllComplete, TextOf, Succeeds;
    var start := ShapeOf(toml, TextOf(m.config));
    if attempts == [] {
      NothingDone(m.tokens, start, profile);
    } else {
      var n := |attempts| - 1;
      var init := attempts[..n];
      InitPlain(attempts);
      ProtectedRun(toml, m, init, profile);
      RunGrows(toml, m, init);
      ProtectedStep(toml, start, RunAll(toml, m, init), Successful(toml, m, init), attempts[n], profile);
    }
  }

  lemma InitPlain(attempts: seq<Attempt>)
    requires attempts != [] && PlainAttempts(attempts)
    ensures PlainAttempts(attempts[..|attempts| - 1])
  {
  }

  lemma NothingDone(tokens: Tokens, start: Option<Profiles>, profile: string)
    ensures AllComplete([]) && AtMostOnce([], start, profile) && Held(tokens, [], profile)
  {
  }

  /** After any run from a config whose `profiles` is not an array of tables: no profile is added twice or
      was declared before, and the slot of every profile added holds exactly the token of the command that
      added it. */
  lemma AnyRun(toml: TomlReader, m: Machine, attempts: seq<Attempt>)
    requires Lawful(toml) && PlainAttempts(attempts)
    ensures var start := ShapeOf(toml, TextOf(m.config));
            var after, done := RunAll(toml, m, attempts), Successful(toml, m, attempts);
            start.None? || !start.value.TableArray? ==>
              && AllComplete(done)
              && forall profile :: AtMostOnce(done, start, profile) && Held(after.tokens, done, profile)
  {
    hide Lawful, PlainAttempts, AtMostOnce, Held, RunAll, Successful, ShapeOf, AllComplete;
    var start := ShapeOf(toml, TextOf(m.config));
    if start.None? || !start.value.TableArray? {
      ProtectedRun(toml, m, attempts, "");
      forall profile
        ensures var done := Successful(toml, m, attempts);
                AtMostOnce(done, start, profile) && Held(RunAll(toml, m, attempts).tokens, done, profile)
      {
        ProtectedRun(toml, m, attempts, profile);
      }
    }
  }

  // ----- exactly when it fails

  /** A run of plain requests that adds the profile twice. */
  ghost predicate AddsTwice(toml: TomlReader, m: Machine, attempts: seq<Attempt>, profile: string)
  {
    && PlainAttempts(attempts)
    && var done := Successful(toml, m, attempts);
       exists i, j | 0 <= i < j < |done| :: done[i].request.name == profile && done[j].request.name == profile
  }

  /** A run of plain requests that adds the profile and ends without the token of a command that did. */
  ghost predicate LosesToken(toml: TomlReader, m: Machine, attempts: seq<Attempt>, profile: string)
  {
    && PlainAttempts(attempts)
    && var done := Successful(toml, m, attempts);
       AllComplete(done) && !Held(RunAll(toml, m, attempts).tokens, done, profile)
  }

  /** A request for the profile that nothing but the config's size can refuse. */
  predicate AsksFor(request: Request, profile: string)
  {
    Complete(request) && PlainRequest(request) && request.name == profile
  }

  predicate OneFits(base: string, profile: string, a: Request)
  {
    AsksFor(a, profile) && |Written(base, [EntryOf(a)])| <= MAXIMUM_CONFIG
  }

  predicate TwoFit(base: string, profile: string, a: Request, b: Request)
  {
    && AsksFor(a, profile) && AsksFor(b, profile)
    && |Written(base, [EntryOf(a), EntryOf(b)])| <= MAXIMUM_CONFIG
  }

  lemma {:induction false} JoinHolds(parts: seq<string>, i: nat, j: nat)
    requires i <= j < |parts|
    ensures |Join(parts, '\n')| >= if i == j then |parts[i]| else |parts[i]| + 1 + |parts[j]|
    decreases |parts|
  {
    hide Join;
    var n := |parts| - 1;
    var init := parts[..n];
    assert parts == init + [parts[n]];
    JoinLast(init, parts[n], '\n');
    if j < n { JoinHolds(init, i, j); } else if i < n { JoinHolds(init, i, i); }
  }

  /** Fewer blocks need no more room. */
  lemma FewerFit(base: string, entries: seq<Entry>, i: nat, j: nat)
    requires i < j < |entries|
    ensures |Written(base, [entries[i], entries[j]])| <= |Written(base, entries)|
  {
    hide Written, Block, Join, Separator;
    var a, b := entries[i], entries[j];
    WrittenBlocks(base, entries);
    WrittenBlocks(base, [a, b]);
    JoinHolds(Blocks(entries), i, j);
    assert Blocks([a, b]) == [Block(a)] + [Block(b)];
    JoinLast([Block(a)], Block(b), '\n');
    JoinSingle(Block(a));
  }

  lemma OneFewer(base: string, entries: seq<Entry>, i: nat)
    requires i < |entries|
    ensures |Written(base, [entries[i]])| <= |Written(base, entries)|
  {
    hide Written, Block, Join, Separator;
    WrittenBlocks(base, entries);
    WrittenBlocks(base, [entries[i]]);
    JoinHolds(Blocks(entries), i, i);
    assert Blocks([entries[i]]) == [Block(entries[i])];
    JoinSingle(Block(entries[i]));
  }

  lemma JoinSingle(part: string)
    ensures Join([part], '\n') == part
  {
  }

  lemma SuccessfulAsks(toml: TomlReader, m: Machine, attempts: seq<Attempt>, i: nat)
    requires PlainAttempts(attempts) && i < |Successful(toml, m, attempts)|
    ensures var done := Successful(toml, m, attempts);
            && AllComplete(done) && AsksFor(done[i].request, done[i].request.name)
            && |Written(TextOf(m.config), Entries(done))| <= MAXIMUM_CONFIG
  {
    hide Complete, PlainRequest, Command, Written;
    ConfigExactly(toml, m, attempts);
    SuccessfulPlain(toml, m, attempts);
    ConfigText(m.config, Entries(Successful(toml, m, attempts)));
  }

  // ----- the runs that fail

  /** A request that nothing refuses succeeds and has this effect. */
  lemma PlainSuccess(toml: TomlReader, m: Machine, request: Request)
    requires m.config.Contents? && Complete(request) && Open(ShapeOf(toml, m.config.text), request.name)
    requires |Extended(m.config.text, EntryOf(request))| <= MAXIMUM_CONFIG
    ensures Command(toml, m, {}, request) ==
            (Machine(Contents(Extended(m.config.text, EntryOf(request))),
                     m.tokens[SlotOf({}, request) := request.response.value.token]), Ok(()))
  {
    hide ValidSlug, Block, Separator;
    var none: Faults := {};
    assert none * WRITE_STEPS == {};
  }

  /** The same request with a failing write takes its token back, from either store. */
  lemma FailedWrite(toml: TomlReader, m: Machine, request: Request, keyring: bool)
    requires m.config.Contents? && Complete(request) && Open(ShapeOf(toml, m.config.text), request.name)
    requires |m.config.text| <= MAXIMUM_CONFIG
    ensures var faults := if keyring then {Write} else {NoKeyring, Write};
            var (after, r) := Command(toml, m, faults, request);
            && r.Err? && PlaceOf(faults, request.name).KeyringEntry? == keyring
            && TokenIn(after.tokens, PlaceOf(faults, request.name)) == None
  {
    hide ValidSlug, Block, Separator;
    var faults := if keyring then {Write} else {NoKeyring, Write};
    assert Write in faults * WRITE_STEPS;
    PlaceAfter(toml, m, faults, request);
  }

  lemma TwoAttempts(toml: TomlReader, m: Machine, a: Attempt, b: Attempt)
    ensures var middle := Command(toml, m, a.faults, a.request).0;
            && RunAll(toml, m, [a, b]) == Command(toml, middle, b.faults, b.request).0
            && Successful(toml, m, [a, b]) ==
               (if Succeeds(toml, m, a) then [a] else []) + if Succeeds(toml, middle, b) then [b] else []
  {
    hide Command;
    var none: seq<Attempt> := [];
    assert [a, b][..1] == [a] && [a][..0] == none;
    assert RunAll(toml, m, none) == m && Successful(toml, m, none) == none;
    assert RunAll(toml, m, [a]) == Command(toml, m, a.faults, a.request).0;
    assert Successful(toml, m, [a]) == none + if Succeeds(toml, m, a) then [a] else [];
  }

  /** Onto an array of tables whose last element does not define the profile, a first command succeeds and
      the config can still be read, with the profile out of the check's sight. */
  lemma FirstAdded(toml: TomlReader, m: Machine, profile: string, a: Request)
    requires Lawful(toml) && !Protected(ShapeOf(toml, TextOf(m.config)), profile)
    requires OneFits(TextOf(m.config), profile, a)
    ensures m.config.Contents? && Succeeds(toml, m, Attempt({}, a)) && Open(ShapeOf(toml, m.config.text), profile)
    ensures var middle := Command(toml, m, {}, a).0;
            && middle.config == Contents(Extended(m.config.text, EntryOf(a)))
            && middle.config == Contents(Written(m.config.text, [EntryOf(a)]))
            && TokenIn(middle.tokens, SlotOf({}, a)) == Some(a.response.value.token)
            && Open(ShapeOf(toml, middle.config.text), profile)
  {
    hide ValidSlug, Block, Separator, Complete, PlainRequest, PlainEntry, EntryOf, Extended, Command, SlotOf;
    var base, e := TextOf(m.config), EntryOf(a);
    EntryFacts(a);
    WrittenStep(base, [], e);
    assert [] + [e] == [e];
    PlainSuccess(toml, m, a);
    assert LawAt(toml, base, e);
    NotEmpty(base, e);
  }

  lemma NotEmpty(text: string, e: Entry)
    ensures Extended(text, e) != ""
  {
    BlockEnding(e);
  }

  lemma TwiceRun(toml: TomlReader, m: Machine, profile: string, a: Request, b: Request)
    requires Lawful(toml) && !Protected(ShapeOf(toml, TextOf(m.config)), profile)
    requires TwoFit(TextOf(m.config), profile, a, b)
    ensures var attempts := [Attempt({}, a), Attempt({}, b)];
            && Successful(toml, m, attempts) == attempts
            && RunAll(toml, m, attempts).tokens ==
               m.tokens[SlotOf({}, a) := a.response.value.token][SlotOf({}, b) := b.response.value.token]
            && SlotOf({}, a) == SlotOf({}, b)
  {
    hide ValidSlug, Block, Separator, Complete, PlainRequest, EntryOf, Extended, Command, Written, ShapeOf, Open,
      SlotFor;
    var base, d, e := TextOf(m.config), EntryOf(a), EntryOf(b);
    OneFewer(base, [d, e], 0);
    assert [d, e][0] == d;
    FirstAdded(toml, m, profile, a);
    PlainSuccess(toml, m, a);
    var middle := Command(toml, m, {}, a).0;
    WrittenStep(base, [d], e);
    assert [d] + [e] == [d, e];
    PlainSuccess(toml, middle, b);
    TwoAttempts(toml, m, Attempt({}, a), Attempt({}, b));
    assert [Attempt({}, a)] + [Attempt({}, b)] == [Attempt({}, a), Attempt({}, b)];
  }

  lemma LosingRun(toml: TomlReader, m: Machine, profile: string, a: Request)
    requires Lawful(toml) && !Protected(ShapeOf(toml, TextOf(m.config)), profile)
    requires OneFits(TextOf(m.config), profile, a)
    ensures LosesToken(toml, m, [Attempt({}, a), Attempt({Write}, a)], profile)
  {
    hide ValidSlug, Block, Separator, Complete, PlainRequest, EntryOf, Extended, Command, Written, ShapeOf, Open,
      SlotFor, Protected;
    var first, second := Attempt({}, a), Attempt({Write}, a);
    FirstAdded(toml, m, profile, a);
    var middle := Command(toml, m, {}, a).0;
    FailedWrite(toml, middle, a, true);
    FaultsExact({}, a);
    TwoAttempts(toml, m, first, second);
    var done := Successful(toml, m, [first, second]);
    assert done == [first];
    assert done[0].request.name == profile;
  }

  /** Some run adds a profile twice if and only if `profiles` starts as an array of tables whose last element
      does not define it and two of its blocks fit. */
  lemma TwiceExactly(toml: TomlReader, m: Machine, profile: string)
    requires Lawful(toml)
    ensures (exists attempts :: AddsTwice(toml, m, attempts, profile)) <==>
              && !Protected(ShapeOf(toml, TextOf(m.config)), profile)
              && exists a, b :: TwoFit(TextOf(m.config), profile, a, b)
  {
    hide Lawful, Protected, ShapeOf, Complete, EntryOf, PlainRequest, RunAll, Successful, Written, TextOf, AllComplete;
    var base := TextOf(m.config);
    if attempts :| AddsTwice(toml, m, attempts, profile) {
      if Protected(ShapeOf(toml, base), profile) { ProtectedRun(toml, m, attempts, profile); }
      var done := Successful(toml, m, attempts);
      var i, j :| 0 <= i < j < |done| && done[i].request.name == profile && done[j].request.name == profile;
      SuccessfulAsks(toml, m, attempts, i);
      SuccessfulAsks(toml, m, attempts, j);
      FewerFit(base, Entries(done), i, j);
      assert TwoFit(base, profile, done[i].request, done[j].request);
    }
    if !Protected(ShapeOf(toml, base), profile) && exists a, b :: TwoFit(base, profile, a, b) {
      var a, b :| TwoFit(base, profile, a, b);
      TwiceRun(toml, m, profile, a, b);
      var attempts := [Attempt({}, a), Attempt({}, b)];
      var done := Successful(toml, m, attempts);
      assert done[0].request.name == profile && done[1].request.name == profile;
      assert AddsTwice(toml, m, attempts, profile);
    }
  }

  /** Some run loses the token of a profile it added if and only if `profiles` starts as an array of tables
      whose last element does not define it and one of its blocks fits. */
  lemma LosesExactly(toml: TomlReader, m: Machine, profile: string)
    requires Lawful(toml)
    ensures (exists attempts :: LosesToken(toml, m, attempts, profile)) <==>
              && !Protected(ShapeOf(toml, TextOf(m.config)), profile)
              && exists a :: OneFits(TextOf(m.config), profile, a)
  {
    hide Lawful, Protected, ShapeOf, Complete, EntryOf, PlainRequest, RunAll, Successful, Written, TextOf, AllComplete;
    var base := TextOf(m.config);
    if attempts :| LosesToken(toml, m, attempts, profile) {
      if Protected(ShapeOf(toml, base), profile) { ProtectedRun(toml, m, attempts, profile); }
      var done := Successful(toml, m, attempts);
      var i :| 0 <= i < |done| && done[i].request.name == profile;
      SuccessfulAsks(toml, m, attempts, i);
      OneFewer(base, Entries(done), i);
      assert OneFits(base, profile, done[i].request);
    }
    if !Protected(ShapeOf(toml, base), profile) && exists a :: OneFits(base, profile, a) {
      var a :| OneFits(base, profile, a);
      LosingRun(toml, m, profile, a);
    }
  }

  /** So every run keeps every profile it adds, once and with its token, if and only if `profiles` does not
      start as an array of tables onto which a new block would fit. */
  lemma SafeExactly(toml: TomlReader, m: Machine)
    requires Lawful(toml)
    ensures (exists profile, attempts ::
               AddsTwice(toml, m, attempts, profile) || LosesToken(toml, m, attempts, profile)) <==>
            exists profile, a ::
              !Protected(ShapeOf(toml, TextOf(m.config)), profile) && OneFits(TextOf(m.config), profile, a)
  {
    hide Lawful, Protected, ShapeOf, AddsTwice, LosesToken, OneFits, TextOf;
    var base := TextOf(m.config);
    if profile, attempts :| AddsTwice(toml, m, attempts, profile) || LosesToken(toml, m, attempts, profile) {
      TwiceExactly(toml, m, profile);
      LosesExactly(toml, m, profile);
      if a, b :| TwoFit(base, profile, a, b) { TwoFitOne(base, profile, a, b); }
    }
    if profile, a :| !Protected(ShapeOf(toml, base), profile) && OneFits(base, profile, a) {
      LosesExactly(toml, m, profile);
    }
  }

  lemma TwoFitOne(base: string, profile: string, a: Request, b: Request)
    requires TwoFit(base, profile, a, b)
    ensures OneFits(base, profile, a)
  {
    hide AsksFor, EntryOf, Written;
    AsksComplete(a, profile);
    AsksComplete(b, profile);
    OneFewer(base, [EntryOf(a), EntryOf(b)], 0);
  }

  lemma AsksComplete(request: Request, profile: string)
    requires AsksFor(request, profile)
    ensures Complete(request)
  {
  }

  // ----- a lawful reader: `profiles` headers, line by line

  predicate IsHeader(line: string)
  {
    "[profiles." <= line && |line| > 10 && line[|line| - 1] == ']'
  }

  function HeaderName(line: string): string
    requires IsHeader(line)
  {
    line[10..|line| - 1]
  }

  function HeaderStep(now: Option<Profiles>, line: string): Option<Profiles>
  {
    if now.None? then None
    else if line == "[[profiles]]" then
      if now.value.Absent? || now.value.TableArray? then Some(TableArray({})) else None
    else if !IsHeader(line) then now
    else
      var name := HeaderName(line);
      match now.value
      case Absent => Some(Table({name}))
      case Table(names) => if name in names then None else Some(Table(names + {name}))
      case TableArray(taken) => if name in taken then None else Some(TableArray(taken + {name}))
      case Other => None
  }

  function HeaderFold(lines: seq<string>, now: Option<Profiles>): Option<Profiles>
  {
    if lines == [] then now else HeaderFold(lines[1..], HeaderStep(now, lines[0]))
  }

  function Scan(text: string, now: Option<Profiles>): Option<Profiles> { HeaderFold(Split(text, '\n'), now) }

  function HeaderReader(text: string): Option<Profiles> { Scan(text, Some(Absent)) }

  lemma {:induction false} FoldConcat(a: seq<string>, b: seq<string>, now: Option<Profiles>)
    ensures HeaderFold(a + b, now) == HeaderFold(b, HeaderFold(a, now))
  {
    hide HeaderStep;
    if a == [] {
      assert a + b == b;
    } else {
      assert (a + b)[0] == a[0] && (a + b)[1..] == a[1..] + b;
      FoldConcat(a[1..], b, HeaderStep(now, a[0]));
    }
  }

  lemma ScanCut(a: string, b: string, now: Option<Profiles>)
    ensures Scan(a + "\n" + b, now) == Scan(b, Scan(a, now))
  {
    hide Split, HeaderFold;
    SplitConcat(a, '\n', b);
    FoldConcat(Split(a, '\n'), Split(b, '\n'), now);
  }

  lemma ScanBlank(now: Option<Profiles>)
    ensures Scan("", now) == now
  {
    SplitSingle("", '\n');
    var blank: seq<string> := [""];
    assert blank[1..] == [];
    assert HeaderStep(now, "") == now;
    assert HeaderFold(blank, now) == HeaderFold(blank[1..], HeaderStep(now, blank[0]));
  }

  function Header(e: Entry): string { "[profiles." + e.profile + "]" }

  function BlockLines(e: Entry): (lines: seq<string>)
    ensures |lines| == 5
  {
    [Header(e), "api_url = " + TomlString(e.api), "web_yard_origin = " + TomlString(e.origin),
     "workspace = " + TomlString(e.workspace), ""]
  }

  lemma BlockText(e: Entry)
    ensures var l := BlockLines(e); Block(e) == l[0] + "\n" + l[1] + "\n" + l[2] + "\n" + l[3] + "\n" + l[4]
  {
    hide TomlString;
    assert "]\napi_url = " == "]" + "\n" + "api_url = ";
    assert "\nweb_yard_origin = " == "\n" + "web_yard_origin = " && "\nworkspace = " == "\n" + "workspace = ";
  }

  lemma BlockPieces(e: Entry)
    requires PlainEntry(e)
    ensures Pieces(BlockLines(e), '\n')
  {
    assert '\n' !in e.profile && '\n' !in e.workspace;
  }

  lemma BlockIsItsLines(e: Entry)
    requires PlainEntry(e)
    ensures Split(Block(e), '\n') == BlockLines(e)
  {
    hide Split, Join, PlainEntry, Block, BlockLines;
    var l := BlockLines(e);
    BlockText(e);
    JoinFive(l[0], l[1], l[2], l[3], l[4]);
    assert l == [l[0], l[1], l[2], l[3], l[4]];
    BlockPieces(e);
    SplitJoin(l, '\n');
  }

  lemma JoinFive(a: string, b: string, c: string, d: string, e: string)
    ensures Join([a, b, c, d, e], '\n') == a + "\n" + b + "\n" + c + "\n" + d + "\n" + e
  {
    assert [a, b, c, d, e][1..] == [b, c, d, e] && [b, c, d, e][1..] == [c, d, e];
    assert [c, d, e][1..] == [d, e] && [d, e][1..] == [e];
    assert Join([d, e], '\n') == d + "\n" + e;
    assert Join([c, d, e], '\n') == c + "\n" + Join([d, e], '\n');
    assert Join([b, c, d, e], '\n') == b + "\n" + Join([c, d, e], '\n');
  }

  lemma OnlyHeaderNames(e: Entry)
    requires PlainEntry(e)
    ensures forall i | 0 <= i < 5 :: IsHeader(BlockLines(e)[i]) <==> i == 0
    ensures HeaderName(BlockLines(e)[0]) == e.profile
  {
    var lines := BlockLines(e);
    assert lines[1][0] == 'a' && lines[2][0] == 'w' && lines[3][0] == 'w';
    assert lines[0][10..|lines[0]| - 1] == e.profile;
  }

  lemma OtherLines(e: Entry, now: Option<Profiles>)
    requires PlainEntry(e)
    ensures forall i | 1 <= i < 5 :: HeaderStep(now, BlockLines(e)[i]) == now
  {
    var lines := BlockLines(e);
    OnlyHeaderNames(e);
    assert lines[1][0] == 'a' && lines[2][0] == 'w' && lines[3][0] == 'w' && lines[4] == "";
  }

  lemma ScanBlock(e: Entry, now: Option<Profiles>)
    requires PlainEntry(e)
    ensures Scan(Block(e), now) == HeaderStep(now, Header(e))
  {
    hide Split, PlainEntry, Block, HeaderStep;
    var l := BlockLines(e);
    BlockIsItsLines(e);
    var next := HeaderStep(now, l[0]);
    OtherLines(e, next);
    assert l[1..][1..] == l[2..] && l[2..][1..] == l[3..] && l[3..][1..] == l[4..] && l[4..][1..] == [];
    assert HeaderFold(l, now) == HeaderFold(l[1..], next);
    assert HeaderFold(l[1..], next) == HeaderFold(l[2..], next);
    assert HeaderFold(l[2..], next) == HeaderFold(l[3..], next);
    assert HeaderFold(l[3..], next) == HeaderFold(l[4..], next);
    assert HeaderFold(l[4..], next) == next;
  }

  lemma ScanExtended(text: string, e: Entry)
    requires PlainEntry(e)
    ensures HeaderReader(Extended(text, e)) == HeaderStep(HeaderReader(text), Header(e))
  {
    hide Scan, EndsWith, Block, HeaderStep, PlainEntry;
    var start, block := Some(Absent), Block(e);
    Endings(text);
    ScanBlank(start);
    ScanBlank(HeaderReader(text));
    ScanBlock(e, HeaderReader(text));
    if text == "" {
      assert Extended(text, e) == block;
    } else if EndsWith(text, "\n\n") {
      var init := text[..|text| - 1];
      assert text == init + "\n" + "" && Extended(text, e) == init + "\n" + block;
      ScanCut(init, "", start);
      ScanCut(init, block, start);
      ScanBlank(Scan(init, start));
    } else if EndsWith(text, "\n") {
      ScanCut(text, block, start);
    } else {
      assert Extended(text, e) == (text + "\n" + "") + "\n" + block;
      ScanCut(text, "", start);
      ScanCut(text + "\n" + "", block, start);
    }
  }

  const ARRAY_CONFIG := "[[profiles]]\n"

  /** The law can be met, and an array of tables is a real input of it. */
  lemma HeaderReaderLawful()
    ensures Lawful(HeaderReader)
    ensures HeaderReader(ARRAY_CONFIG) == Some(TableArray({}))
  {
    hide Extended, PlainEntry, Scan;
    forall text, e | PlainEntry(e) ensures LawAt(HeaderReader, text, e) {
      ScanExtended(text, e);
      HeaderNames(e);
      ScanBlank(Some(Absent));
    }
    ArrayScanned();
  }

  lemma HeaderNames(e: Entry)
    requires PlainEntry(e)
    ensures Header(e) != "[[profiles]]" && IsHeader(Header(e)) && HeaderName(Header(e)) == e.profile
  {
    OnlyHeaderNames(e);
    assert Header(e)[1] == 'p';
  }

  lemma ArrayScanned()
    ensures HeaderReader(ARRAY_CONFIG) == Some(TableArray({}))
  {
    hide Split;
    var line := "[[profiles]]";
    assert '\n' !in line;
    assert ARRAY_CONFIG == line + "\n" + "";
    ScanCut(line, "", Some(Absent));
    SplitSingle(line, '\n');
    assert [line][1..] == [];
    ScanBlank(Scan(line, Some(Absent)));
  }

  // ----- the witness

  /** A second request for the same profile, answered with another token. */
  const AGAIN := LOCAL.(response := Ok(Response("default", Some("http://localhost:8787"), "reissued")))

  lemma LocalAsks()
    ensures AsksFor(LOCAL, "local") && AsksFor(AGAIN, "local") && EntryOf(AGAIN) == EntryOf(LOCAL)
    ensures PlainEntry(EntryOf(LOCAL)) && |Block(EntryOf(LOCAL))| < 1000
  {
    LocalIsComplete();
    var api, origin := "http://localhost:8787/v1", "http://localhost:8787";
    assert '"' !in api && '\\' !in api && '\n' !in api;
    assert '"' !in origin && '\\' !in origin && '\n' !in origin;
  }

  lemma TwiceText(e: Entry)
    ensures Written(ARRAY_CONFIG, [e, e]) == ARRAY_CONFIG + "\n" + Block(e) + "\n" + Block(e)
    ensures Written(ARRAY_CONFIG, [e, e]) == Extended(Extended(ARRAY_CONFIG, e), e)
  {
    hide Block, EndsWith, Extended;
    Endings(ARRAY_CONFIG);
    WrittenBlocks(ARRAY_CONFIG, [e, e]);
    assert Blocks([e, e]) == [Block(e)] + [Block(e)];
    JoinLast([Block(e)], Block(e), '\n');
    JoinSingle(Block(e));
    assert ARRAY_CONFIG + "\n" + (Block(e) + ['\n'] + Block(e)) == ARRAY_CONFIG + "\n" + Block(e) + "\n" + Block(e);
    assert [] + [e] == [e] && [e] + [e] == [e, e];
    WrittenStep(ARRAY_CONFIG, [], e);
    WrittenStep(ARRAY_CONFIG, [e], e);
  }

  lemma TwiceUnreadable(e: Entry)
    requires PlainEntry(e)
    ensures HeaderReader(Extended(Extended(ARRAY_CONFIG, e), e)) == None
  {
    hide HeaderReader, Extended, PlainEntry;
    HeaderReaderLawful();
    assert LawAt(HeaderReader, ARRAY_CONFIG, e);
    NotEmpty(ARRAY_CONFIG, e);
    assert LawAt(HeaderReader, Extended(ARRAY_CONFIG, e), e);
  }

  /** From a config that holds nothing but `[[profiles]]`, adding `local` twice succeeds twice: its block is
      there twice, the config no longer parses, and only the second token is left. */
  lemma AddedTwice()
    ensures var m := Machine(Contents(ARRAY_CONFIG), map[]);
            var attempts := [Attempt({}, LOCAL), Attempt({}, AGAIN)];
            var after := RunAll(HeaderReader, m, attempts);
            && Successful(HeaderReader, m, attempts) == attempts
            && after.tokens == map[SlotFor(true, "local") := "reissued"]
            && Complete(LOCAL)
            && after.config == Contents(ARRAY_CONFIG + "\n" + Block(EntryOf(LOCAL)) + "\n" + Block(EntryOf(LOCAL)))
            && HeaderReader(after.config.text) == None
  {
    hide HeaderReader, Block, Lawful, RunAll, Successful, Written, AsksFor, PlainEntry, Extended, Separator;
    var m := Machine(Contents(ARRAY_CONFIG), map[]);
    var attempts := [Attempt({}, LOCAL), Attempt({}, AGAIN)];
    HeaderReaderLawful();
    LocalAsks();
    var e := EntryOf(LOCAL);
    TwiceText(e);
    TwiceRun(HeaderReader, m, "local", LOCAL, AGAIN);
    ConfigExactly(HeaderReader, m, attempts);
    assert Entries(attempts) == [e, e];
    ConfigText(m.config, [e, e]);
    TwiceUnreadable(e);
  }
}
