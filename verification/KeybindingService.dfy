/**
 The service object built by `make` in `ch3/apps/server/src/keybindings.ts`. Each
 method is one operation run without interruption, and is proved to be the
 matching run of the protocol's steps.
 */
module KeybindingService {
  import opened Outcomes
  import opened KeybindingRules
  import opened KeybindingProtocol
  import opened KeybindingCache

  datatype ServiceError = ExpectedJsonArray | WriteFailed

  lemma {:induction false} EntriesStep(entries: seq<Entry>, i: nat)
    requires i < |entries|
    ensures var rest := entries[i + 1..];
            && ValidRules(entries[i..]) == (if ValidEntry(entries[i]) then [entries[i].rule] else []) + ValidRules(rest)
            && EntryIssues(entries[i..], i) ==
               (if ValidEntry(entries[i]) then [] else [InvalidEntry(i)]) + EntryIssues(rest, i + 1)
  {
    hide ValidEntry;
    assert entries[i..][0] == entries[i] && entries[i..][1..] == entries[i + 1..];
  }

  lemma {:induction false} MissingStep(defaults: seq<Rule>, custom: seq<Rule>, i: nat)
    requires i < |defaults|
    ensures MissingDefaults(defaults[i..], custom) ==
            (if HasCommand(custom, defaults[i].command) || Clashes(custom, defaults[i]) then [] else [defaults[i]]) +
            MissingDefaults(defaults[i + 1..], custom)
  {
    hide HasCommand, Clashes;
    assert defaults[i..][0] == defaults[i] && defaults[i..][1..] == defaults[i + 1..];
  }

  lemma {:induction false} NothingMissing(custom: seq<Rule>)
    ensures MissingDefaults([], custom) == []
  {
  }

  /** The entry loop of `loadRuntimeCustomKeybindingsConfig`. */
  method DecodeEntries(entries: seq<Entry>) returns (keybindings: seq<Rule>, issues: seq<Issue>)
    ensures keybindings == ValidRules(entries) && issues == EntryIssues(entries, 0)
  {
    hide ValidEntry;
    keybindings, issues := [], [];
    var index := 0;
    assert entries[0..] == entries;
    while index < |entries|
      invariant 0 <= index <= |entries|
      invariant ValidRules(entries) == keybindings + ValidRules(entries[index..])
      invariant EntryIssues(entries, 0) == issues + EntryIssues(entries[index..], index)
    {
      hide ValidRules, EntryIssues;
      EntriesStep(entries, index);
      if !ValidEntry(entries[index]) {
        issues := issues + [InvalidEntry(index)];
      } else {
        keybindings := keybindings + [entries[index].rule];
      }
      index := index + 1;
    }
    assert entries[index..] == [];
  }

  /** The defaults loop of `syncDefaultKeybindingsOnStartup`. */
  method CollectMissingDefaults(defaults: seq<Rule>, custom: seq<Rule>) returns (missing: seq<Rule>)
    ensures missing == MissingDefaults(defaults, custom)
  {
    hide Clashes, HasCommand, MissingDefaults;
    missing := [];
    var i := 0;
    assert defaults[0..] == defaults;
    while i < |defaults|
      invariant 0 <= i <= |defaults|
      invariant MissingDefaults(defaults, custom) == missing + MissingDefaults(defaults[i..], custom)
    {
      MissingStep(defaults, custom, i);
      if !HasCommand(custom, defaults[i].command) && !Clashes(custom, defaults[i]) {
        missing := missing + [defaults[i]];
      }
      i := i + 1;
    }
    NothingMissing(custom);
    assert defaults[i..] == [];
  }

  /** An uninterrupted revalidation. */
  lemma {:induction false} RevalidateCycle(defaults: seq<Rule>, s: Service)
    requires s.holder.Free?
    ensures var t, state := s.nextToken, Compute(defaults, s.file);
            Step(defaults, Step(defaults, Step(defaults, Step(defaults, Step(defaults, s,
              BeginRevalidate), RevalidateGet), LookupRead(t)), LookupDone(t)), RevalidateEmit) ==
            s.(slot := Filled(state), lookups := s.lookups[t := Done(state)], nextToken := t + 1,
               uncompiled := false, behind := false, edited := false, feed := s.feed + [state])
  {
    hide Compute, RuntimeState, LoadWritable, SyncPlan, FileOf, AllCompile, UpsertConfig, RemoveConfig, Writable;
    var t, state := s.nextToken, Compute(defaults, s.file);
    var a := Step(defaults, Step(defaults, s, BeginRevalidate), RevalidateGet);
    assert a == s.(slot := Loading(t), lookups := s.lookups[t := Started], nextToken := t + 1, holder := Awaiting(t),
                   uncompiled := false, behind := false, edited := false);
    var b := Step(defaults, a, LookupRead(t));
    assert b == a.(lookups := a.lookups[t := Read(state)]);
    var c := Step(defaults, b, LookupDone(t));
    assert c == b.(lookups := b.lookups[t := Done(state)], slot := Filled(state));
    assert c.lookups == s.lookups[t := Done(state)];
  }

  class Keybindings {
    const defaults: seq<Rule>
    var file: File
    var cache: Option<ConfigState>
    var changes: seq<ConfigState>
    ghost var svc: Service

    ghost predicate Valid()
      reads this
    {
      && svc.holder.Free? && file == svc.file && changes == svc.feed
      && svc.slot == match cache { case None => Vacant case Some(state) => Filled(state) }
    }

    constructor (defaults: seq<Rule>, file: File)
      ensures Valid() && this.defaults == defaults && svc == Start(file)
    {
      this.defaults, this.file, cache, changes := defaults, file, None, [];
      svc := Start(file);
    }

    method LoadRuntimeConfig() returns (keybindings: seq<Rule>, issues: seq<Issue>)
      ensures (keybindings, issues) == LoadRuntime(file)
    {
      if file.Missing? {
        return [], [];
      }
      if file.Malformed? {
        return [], [MalformedConfig];
      }
      keybindings, issues := DecodeEntries(file.entries);
    }

    method LoadWritableConfig() returns (r: Option<seq<Rule>>)
      ensures r == LoadWritable(file)
    {
      if file.Missing? {
        return Some([]);
      }
      if file.Malformed? {
        return None;
      }
      var keybindings, issues := LoadRuntimeConfig();
      return Some(keybindings);
    }

    /** `writeConfigAtomically`; `ok` says whether the file system obliges. */
    method WriteConfigAtomically(rules: seq<Rule>, ok: bool) returns (written: bool)
      modifies this`file
      ensures written == Writable(rules, ok)
      ensures file == if written then FileOf(rules) else old(file)
    {
      written := ok && |rules| <= MAX_COUNT;
      if written {
        file := FileOf(rules);
      }
    }

    /** The part upsert and remove share: write, set the cache, publish. */
    method Store(next: seq<Rule>, ok: bool, ghost begin: Event)
      returns (r: Result<seq<Resolved>, ServiceError>)
      requires Valid() && Step(defaults, svc, begin) == svc.(holder := Loaded(next))
      modifies this
      ensures Valid() && svc == Run(defaults, old(svc), [begin, WriteConfig(ok), SetCache, Publish])
      ensures r == if Writable(next, ok) then Ok(MergeWithDefaults(defaults, CompileAll(next))) else Err(WriteFailed)
    {
      ghost var s := svc;
      FourSteps(defaults, s, begin, WriteConfig(ok), SetCache, Publish);
      hide Run, UpsertConfig, RemoveConfig, LoadWritable, SyncPlan, Compute, FileOf, AllCompile, MergeWithDefaults,
           CompileAll;
      svc := Step(defaults, Step(defaults, Step(defaults, Step(defaults, s, begin), WriteConfig(ok)), SetCache),
          Publish);
      var written := WriteConfigAtomically(next, ok);
      if !written {
        return Err(WriteFailed);
      }
      var nextResolved := MergeWithDefaults(defaults, CompileAll(next));
      cache := Some(ConfigState(nextResolved, []));
      changes := changes + [ConfigState(nextResolved, [])];
      return Ok(nextResolved);
    }

    method UpsertKeybindingRule(rule: Rule, replace: Option<Rule>, ok: bool)
      returns (r: Result<seq<Resolved>, ServiceError>)
      requires Valid()
      modifies this
      ensures Valid() &&
              svc == Run(defaults, old(svc), [BeginUpsert(rule, replace), WriteConfig(ok), SetCache, Publish])
      ensures r == match LoadWritable(old(file)) {
                     case None => Err(ExpectedJsonArray)
                     case Some(custom) =>
                       var next := UpsertConfig(custom, rule, replace);
                       if ok then Ok(MergeWithDefaults(defaults, CompileAll(next))) else Err(WriteFailed)
                   }
    {
      var custom := LoadWritableConfig();
      if custom.None? {
        FourSteps(defaults, svc, BeginUpsert(rule, replace), WriteConfig(ok), SetCache, Publish);
        return Err(ExpectedJsonArray);
      }
      var nextConfig := Excluding(custom.value, Dropped(rule, replace)) + [rule];
      var cappedConfig := if |nextConfig| > MAX_COUNT then nextConfig[|nextConfig| - MAX_COUNT..] else nextConfig;
      assert cappedConfig == UpsertConfig(custom.value, rule, replace);
      BeginUpsertLoads(defaults, svc, rule, replace);
      hide UpsertConfig, LoadWritable, Step, Excluding, LastOf;
      r := Store(cappedConfig, ok, BeginUpsert(rule, replace));
    }

    method RemoveKeybindingRule(target: Rule, ok: bool) returns (r: Result<seq<Resolved>, ServiceError>)
      requires Valid()
      modifies this
      ensures Valid() && svc == Run(defaults, old(svc), [BeginRemove(target), WriteConfig(ok), SetCache, Publish])
      ensures r == match LoadWritable(old(file)) {
                     case None => Err(ExpectedJsonArray)
                     case Some(custom) =>
                       var next := RemoveConfig(custom, target);
                       if Writable(next, ok)
                       then Ok(MergeWithDefaults(defaults, CompileAll(next)))
                       else Err(WriteFailed)
                   }
    {
      var custom := LoadWritableConfig();
      if custom.None? {
        FourSteps(defaults, svc, BeginRemove(target), WriteConfig(ok), SetCache, Publish);
        return Err(ExpectedJsonArray);
      }
      var nextConfig := Excluding(custom.value, {target});
      BeginRemoveLoads(defaults, svc, target);
      r := Store(nextConfig, ok, BeginRemove(target));
    }

    /** What startup will write, if anything. */
    method PlanSync() returns (plan: Option<seq<Rule>>)
      ensures plan == SyncPlan(defaults, file)
    {
      hide MissingDefaults, ValidRules, EntryIssues;
      if file.Missing? {
        return Some(defaults);
      }
      var customConfig, issues := LoadRuntimeConfig();
      if issues != [] {
        return None;
      }
      var missingDefaults := CollectMissingDefaults(defaults, customConfig);
      var availableSlots := if |customConfig| >= MAX_COUNT then 0 else MAX_COUNT - |customConfig|;
      var defaultsToAppend :=
        if |missingDefaults| <= availableSlots then missingDefaults else missingDefaults[..availableSlots];
      if defaultsToAppend == [] {
        return None;
      }
      return Some(customConfig + defaultsToAppend);
    }

    method SyncDefaultKeybindingsOnStartup(ok: bool) returns (r: Result<(), ServiceError>)
      requires Valid()
      modifies this
      ensures Valid() && svc == Run(defaults, old(svc), [BeginSync, SyncWrite(ok), SyncInvalidate])
      ensures r.Err? <==> SyncPlan(defaults, old(file)).Some? && !Writable(SyncPlan(defaults, old(file)).value, ok)
    {
      ghost var s := svc;
      ThreeSteps(defaults, s, BeginSync, SyncWrite(ok), SyncInvalidate);
      svc := Step(defaults, Step(defaults, Step(defaults, s, BeginSync), SyncWrite(ok)), SyncInvalidate);
      hide Run, FileOf, Compute, SyncPlan, UpsertConfig, RemoveConfig, LoadWritable;
      var plan := PlanSync();
      if plan.Some? {
        var written := WriteConfigAtomically(plan.value, ok);
        if !written {
          return Err(WriteFailed);
        }
      }
      cache := None;
      return Ok(());
    }

    /** `Cache.get`: the cached state, or the state read from disk and then cached. */
    method GetSnapshot() returns (state: ConfigState)
      requires Valid()
      modifies this
      ensures Valid() && file == old(file)
      ensures var t := old(svc).nextToken;
              svc == Run(defaults, old(svc), [BeginLookup, LookupRead(t), LookupDone(t)]) || svc == old(svc)
      ensures cache == Some(state) && (old(cache) == None ==> state == Compute(defaults, file))
      ensures old(cache).Some? ==> state == old(cache).value && svc == old(svc)
    {
      if cache.Some? {
        return cache.value;
      }
      ghost var s, t := svc, svc.nextToken;
      LookupCycle(defaults, s);
      hide Run, Step, MergeWithDefaults, CompileAll;
      var keybindings, issues := LoadRuntimeConfig();
      state := ConfigState(MergeWithDefaults(defaults, CompileAll(keybindings)), issues);
      assert state == Compute(defaults, file);
      hide Compute;
      cache := Some(state);
      svc := Run(defaults, s, [BeginLookup, LookupRead(t), LookupDone(t)]);
    }

    /** The watcher's `revalidateAndEmit`. */
    method RevalidateAndEmit() returns (state: ConfigState)
      requires Valid()
      modifies this
      ensures Valid() && file == old(file) && state == Compute(defaults, file)
      ensures cache == Some(state) && changes == old(changes) + [state]
      ensures var t := old(svc).nextToken;
              svc == Run(defaults, old(svc),
                         [BeginRevalidate, RevalidateGet] + [LookupRead(t), LookupDone(t), RevalidateEmit])
    {
      ghost var s, t := svc, svc.nextToken;
      FiveSteps(defaults, s, BeginRevalidate, RevalidateGet, LookupRead(t), LookupDone(t), RevalidateEmit);
      hide Run, MergeWithDefaults, CompileAll, Step;
      var keybindings, issues := LoadRuntimeConfig();
      state := ConfigState(MergeWithDefaults(defaults, CompileAll(keybindings)), issues);
      assert state == Compute(defaults, file);
      hide Compute, LoadRuntime;
      RevalidateCycle(defaults, s);
      cache := Some(state);
      changes := changes + [state];
      svc := Step(defaults, Step(defaults, Step(defaults, Step(defaults, Step(defaults, s,
               BeginRevalidate), RevalidateGet), LookupRead(t)), LookupDone(t)), RevalidateEmit);
    }
  }
}
