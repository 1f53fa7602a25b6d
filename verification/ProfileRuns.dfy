/** Runs of profile commands: what the config and the token slots hold afterwards. */
module ProfileRuns {
  import opened Text
  import opened Profile

  // ----- many profiles

  /** A block always starts after a blank line, made with as few newlines as possible. */
  lemma BlankLineBeforeBlock(existing: string, fewer: string)
    requires existing != ""
    ensures EndsWith(existing + Separator(existing), "\n\n")
    ensures forall i | 0 <= i < |Separator(existing)| :: Separator(existing)[i] == '\n'
    ensures |fewer| < |Separator(existing)| && (forall i | 0 <= i < |fewer| :: fewer[i] == '\n') ==>
              !EndsWith(existing + fewer, "\n\n")
  {
    hide EndsWith;
    Endings(existing);
    Endings(existing + Separator(existing));
    Endings(existing + fewer);
  }

  lemma Endings(s: string)
    ensures EndsWith(s, "\n") <==> |s| > 0 && s[|s| - 1] == '\n'
    ensures EndsWith(s, "\n\n") <==> |s| > 1 && s[|s| - 1] == '\n' && s[|s| - 2] == '\n'
  {
    if |s| > 0 { assert s[|s| - 1..] == [s[|s| - 1]]; }
    if |s| > 1 { assert s[|s| - 2..] == [s[|s| - 2], s[|s| - 1]]; }
  }

  lemma BlockEnding(e: Entry)
    ensures |Block(e)| > 1 && EndsWith(Block(e), "\n") && !EndsWith(Block(e), "\n\n")
  {
    var b := Block(e);
    assert b[|b| - 1] == '\n' && b[|b| - 2] == '"';
  }

  function Blocks(entries: seq<Entry>): seq<string>
  {
    seq(|entries|, i requires 0 <= i < |entries| => Block(entries[i]))
  }

  /** The config after a run of successful writes onto `base`. */
  function Written(base: string, entries: seq<Entry>): string
  {
    if entries == [] then base else Extended(Written(base, entries[..|entries| - 1]), entries[|entries| - 1])
  }

  lemma {:induction false} JoinLast(parts: seq<string>, last: string, sep: char)
    ensures Join(parts + [last], sep) == if parts == [] then last else Join(parts, sep) + [sep] + last
  {
    if |parts| == 0 {
      assert parts + [last] == [last];
    } else {
      assert (parts + [last])[1..] == parts[1..] + [last];
      JoinLast(parts[1..], last, sep);
      if |parts| > 1 {
        assert parts[0] + [sep] + (Join(parts[1..], sep) + [sep] + last) ==
               (parts[0] + [sep] + Join(parts[1..], sep)) + [sep] + last;
      } else {
        assert parts[1..] == [];
      }
    }
  }

  lemma EndingOfConcat(a: string, b: string)
    requires |b| > 1
    ensures EndsWith(a + b, "\n") <==> EndsWith(b, "\n")
    ensures EndsWith(a + b, "\n\n") <==> EndsWith(b, "\n\n")
  {
    var s := a + b;
    assert s[|s| - 1..] == b[|b| - 1..] && s[|s| - 2..] == b[|b| - 2..];
  }

  /** Successive writes leave the old text, its separator and the blocks, one blank line apart. */
  lemma {:induction false} WrittenBlocks(base: string, entries: seq<Entry>)
    ensures entries != [] ==> Written(base, entries) == base + Separator(base) + Join(Blocks(entries), '\n')
    ensures entries != [] ==>
              && Written(base, entries) != ""
              && EndsWith(Written(base, entries), "\n") && !EndsWith(Written(base, entries), "\n\n")
  {
    hide Block, EndsWith, Join;
    if entries != [] {
      var init, e := entries[..|entries| - 1], entries[|entries| - 1];
      var before := Written(base, init);
      WrittenBlocks(base, init);
      BlockEnding(e);
      assert Blocks(entries) == Blocks(init) + [Block(e)];
      JoinLast(Blocks(init), Block(e), '\n');
      EndingOfConcat(before + Separator(before), Block(e));
      if init != [] {
        var joined := Join(Blocks(init), '\n');
        var start := base + Separator(base);
        assert start + joined + "\n" + Block(e) == start + (joined + ['\n'] + Block(e));
      }
    }
  }

  lemma WrittenStep(base: string, entries: seq<Entry>, e: Entry)
    ensures Written(base, entries + [e]) == Extended(Written(base, entries), e)
  {
    assert (entries + [e])[..|entries|] == entries;
  }

  // ----- any run of commands

  datatype Attempt = Attempt(faults: Faults, request: Request)

  function RunAll(toml: TomlReader, m: Machine, attempts: seq<Attempt>): Machine
  {
    if attempts == [] then m
    else
      var n := |attempts| - 1;
      Command(toml, RunAll(toml, m, attempts[..n]), attempts[n].faults, attempts[n].request).0
  }

  predicate Succeeds(toml: TomlReader, m: Machine, attempt: Attempt)
  {
    Command(toml, m, attempt.faults, attempt.request).1.Ok?
  }

  /** The attempts of a run that succeeded, in order. */
  function Successful(toml: TomlReader, m: Machine, attempts: seq<Attempt>): seq<Attempt>
  {
    if attempts == [] then []
    else
      var n := |attempts| - 1;
      Successful(toml, m, attempts[..n]) +
      if Succeeds(toml, RunAll(toml, m, attempts[..n]), attempts[n]) then [attempts[n]] else []
  }

  predicate AllComplete(attempts: seq<Attempt>)
  {
    forall i | 0 <= i < |attempts| :: Complete(attempts[i].request)
  }

  function Entries(attempts: seq<Attempt>): seq<Entry>
    requires AllComplete(attempts)
  {
    seq(|attempts|, i requires 0 <= i < |attempts| => EntryOf(attempts[i].request))
  }

  /** A successful command adds the block of its own profile. */
  lemma CommandAppends(toml: TomlReader, m: Machine, attempt: Attempt, base: string, entries: seq<Entry>)
    requires TextOf(m.config) == Written(base, entries) && Succeeds(toml, m, attempt)
    ensures Complete(attempt.request)
    ensures Command(toml, m, attempt.faults, attempt.request).0.config ==
            Contents(base + Separator(base) + Join(Blocks(entries + [EntryOf(attempt.request)]), '\n'))
  {
    hide Command, Block, Join, Written, Separator, Complete, EntryOf;
    AllOrNothing(toml, m, attempt.faults, attempt.request);
    var e := EntryOf(attempt.request);
    WrittenStep(base, entries, e);
    WrittenBlocks(base, entries + [e]);
  }

  /** The config of a machine that `added` were written onto. */
  function ConfigAfter(before: ConfigFile, added: seq<Entry>): ConfigFile
  {
    if added == [] then before
    else Contents(TextOf(before) + Separator(TextOf(before)) + Join(Blocks(added), '\n'))
  }

  lemma ConfigText(before: ConfigFile, added: seq<Entry>)
    ensures TextOf(ConfigAfter(before, added)) == Written(TextOf(before), added)
  {
    hide Block, Join, Separator;
    WrittenBlocks(TextOf(before), added);
  }

  lemma EntriesAppend(done: seq<Attempt>, next: Attempt)
    requires AllComplete(done) && Complete(next.request)
    ensures AllComplete(done + [next])
    ensures Entries(done + [next]) == Entries(done) + [EntryOf(next.request)]
  {
    hide Complete, EntryOf;
  }

  /** After any run of commands, for every reader, from any machine and with any failures anywhere: the
      config is the text it started with, its separator and exactly the blocks of the successful commands, a
      blank line apart, within the limit, and none of them is for the reserved profile. */
  lemma {:induction false} ConfigExactly(toml: TomlReader, m: Machine, attempts: seq<Attempt>)
    ensures var after, done := RunAll(toml, m, attempts), Successful(toml, m, attempts);
            && AllComplete(done)
            && after.config == ConfigAfter(m.config, Entries(done))
            && (done != [] ==> |TextOf(after.config)| <= MAXIMUM_CONFIG)
            && forall i | 0 <= i < |done| :: done[i].request.name != "cloud"
  {
    hide Command, Complete, EntryOf, Block, Join, Separator;
    if attempts != [] {
      var n := |attempts| - 1;
      var before, done, next := RunAll(toml, m, attempts[..n]), Successful(toml, m, attempts[..n]), attempts[n];
      ConfigExactly(toml, m, attempts[..n]);
      AllOrNothing(toml, before, next.faults, next.request);
      if Succeeds(toml, before, next) {
        ConfigText(m.config, Entries(done));
        CommandAppends(toml, before, next, TextOf(m.config), Entries(done));
        EntriesAppend(done, next);
        NotReserved(next.request);
      } else {
        assert done + [] == done;
      }
    }
  }

  lemma NotReserved(request: Request)
    requires Complete(request)
    ensures request.name != "cloud"
  {
  }

  // ----- what a slot holds

  /** This attempt puts its token into this slot. */
  predicate Touches(toml: TomlReader, m: Machine, attempt: Attempt, slot: Slot)
  {
    && Reached(toml, m, attempt.faults, attempt.request)
    && PlaceOf(attempt.faults, attempt.request.name) == slot && PutInPlace(attempt.faults)
  }

  /** What such an attempt leaves there: its token, unless it takes it back. */
  function Leaves(toml: TomlReader, m: Machine, attempt: Attempt, slot: Slot): Option<string>
    requires Touches(toml, m, attempt, slot)
  {
    ReachedIsComplete(toml, m, attempt.faults, attempt.request);
    if !Succeeds(toml, m, attempt) && SaveWorks(attempt.faults) && RemovalWorks(attempt.faults) then None
    else Some(attempt.request.response.value.token)
  }

  lemma SlotStep(toml: TomlReader, m: Machine, attempt: Attempt, slot: Slot)
    ensures var after := Command(toml, m, attempt.faults, attempt.request).0;
            TokenIn(after.tokens, slot) ==
              if Touches(toml, m, attempt, slot) then Leaves(toml, m, attempt, slot) else TokenIn(m.tokens, slot)
  {
    hide Prepared, WriteResult, SlotOf, PlaceOf, Stores, SaveFails, DeleteFails, PutInPlace;
    FaultsExact(attempt.faults, attempt.request);
    if Reached(toml, m, attempt.faults, attempt.request) {
      ReachedIsComplete(toml, m, attempt.faults, attempt.request);
    }
  }

  /** Attempt `k` of a run puts its token into this slot. */
  predicate TouchesAt(toml: TomlReader, m: Machine, attempts: seq<Attempt>, k: nat, slot: Slot)
    requires k < |attempts|
  {
    Touches(toml, RunAll(toml, m, attempts[..k]), attempts[k], slot)
  }

  lemma {:induction false} UntouchedSlot(
      toml: TomlReader, m: Machine, attempts: seq<Attempt>, from: nat, slot: Slot)
    requires from <= |attempts|
    requires forall k | from <= k < |attempts| :: !TouchesAt(toml, m, attempts, k, slot)
    ensures TokenIn(RunAll(toml, m, attempts).tokens, slot) ==
            TokenIn(RunAll(toml, m, attempts[..from]).tokens, slot)
  {
    hide Command, Touches;
    if from == |attempts| {
      assert attempts[..from] == attempts;
    } else {
      var n := |attempts| - 1;
      var init := attempts[..n];
      assert init[..from] == attempts[..from];
      forall k | from <= k < n ensures !TouchesAt(toml, m, init, k, slot) {
        assert init[..k] == attempts[..k];
        assert !TouchesAt(toml, m, attempts, k, slot);
      }
      UntouchedSlot(toml, m, init, from, slot);
      assert !TouchesAt(toml, m, attempts, n, slot);
      SlotStep(toml, RunAll(toml, m, init), attempts[n], slot);
    }
  }

  lemma RunNext(toml: TomlReader, m: Machine, attempts: seq<Attempt>, k: nat)
    requires k < |attempts|
    ensures RunAll(toml, m, attempts[..k + 1]) ==
            Command(toml, RunAll(toml, m, attempts[..k]), attempts[k].faults, attempts[k].request).0
  {
    assert attempts[..k + 1][..k] == attempts[..k];
  }

  /** After any run a slot holds what the last attempt that put a token there left, or what it held before
      if none did. */
  lemma SlotExactly(toml: TomlReader, m: Machine, attempts: seq<Attempt>, slot: Slot)
    ensures (forall k | 0 <= k < |attempts| :: !TouchesAt(toml, m, attempts, k, slot)) ==>
              TokenIn(RunAll(toml, m, attempts).tokens, slot) == TokenIn(m.tokens, slot)
    ensures forall k | 0 <= k < |attempts| && TouchesAt(toml, m, attempts, k, slot) &&
                       (forall j | k < j < |attempts| :: !TouchesAt(toml, m, attempts, j, slot)) ::
              TokenIn(RunAll(toml, m, attempts).tokens, slot) ==
              Leaves(toml, RunAll(toml, m, attempts[..k]), attempts[k], slot)
  {
    hide Command, Touches, Leaves, TokenIn;
    if forall k | 0 <= k < |attempts| :: !TouchesAt(toml, m, attempts, k, slot) {
      UntouchedSlot(toml, m, attempts, 0, slot);
      assert attempts[..0] == [];
    }
    forall k | 0 <= k < |attempts| && TouchesAt(toml, m, attempts, k, slot) &&
               (forall j | k < j < |attempts| :: !TouchesAt(toml, m, attempts, j, slot))
      ensures TokenIn(RunAll(toml, m, attempts).tokens, slot) ==
              Leaves(toml, RunAll(toml, m, attempts[..k]), attempts[k], slot)
    {
      RunNext(toml, m, attempts, k);
      SlotStep(toml, RunAll(toml, m, attempts[..k]), attempts[k], slot);
      UntouchedSlot(toml, m, attempts, k + 1, slot);
    }
  }
}
