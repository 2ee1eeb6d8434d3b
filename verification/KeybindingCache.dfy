/** The service's cache agrees with the file on every run. */
module KeybindingCache {
  import opened Outcomes
  import opened KeybindingRules
  import opened KeybindingRuleLaws
  import opened KeybindingProtocol
  import opened Text

  // ----- What a written file computes to -----

  lemma {:induction false} AllCompileCons(rule: Rule, rest: seq<Rule>)
    ensures AllCompile([rule] + rest) <==> Compile(rule).Some? && AllCompile(rest)
  {
    hide Compile;
    if AllCompile([rule] + rest) {
      assert ([rule] + rest)[0] == rule;
      assert forall i :: 0 <= i < |rest| ==> rest[i] == ([rule] + rest)[i + 1];
    }
  }

  lemma {:induction false} WrittenEntries(rule: Rule, rest: seq<Rule>, index: nat)
    ensures var entries := EntriesOf([rule] + rest);
            && entries == [RuleEntry(rule)] + EntriesOf(rest)
            && ValidRules(entries) == (if Compile(rule).Some? then [rule] else []) + ValidRules(EntriesOf(rest))
            && EntryIssues(entries, index) ==
               (if Compile(rule).Some? then [] else [InvalidEntry(index)]) + EntryIssues(EntriesOf(rest), index + 1)
  {
    hide Compile;
    assert ([rule] + rest)[1..] == rest;
    assert EntriesOf([rule] + rest)[1..] == EntriesOf(rest);
  }

  lemma {:induction false} WrittenRules(rules: seq<Rule>, index: nat)
    ensures var entries := EntriesOf(rules);
            && CompileEach(ValidRules(entries)) == CompileEach(rules)
            && (EntryIssues(entries, index) == [] <==> AllCompile(rules))
            && (AllCompile(rules) ==> ValidRules(entries) == rules)
  {
    hide Compile, CompileEach, ValidRules, EntriesOf, EntryIssues, AllCompile;
    NoEntries(index);
    if rules != [] {
      var rule, rest := rules[0], rules[1..];
      WrittenRules(rest, index + 1);
      assert rules == [rule] + rest;
      AllCompileCons(rule, rest);
      WrittenEntries(rule, rest, index);
      CompileOne(rule);
      CompileEachAppend(if Compile(rule).Some? then [rule] else [], ValidRules(EntriesOf(rest)));
      CompileEachAppend([rule], rest);
    }
  }

  /** Setting the cache after a write equals reading the file exactly when every rule compiles. */
  lemma {:induction false} WrittenAgrees(defaults: seq<Rule>, rules: seq<Rule>)
    ensures RuntimeState(defaults, rules, []) == Compute(defaults, FileOf(rules)) <==> AllCompile(rules)
  {
    hide CompileEach, MergeWithDefaults, EntryIssues, ValidRules, EntriesOf, AllCompile, LastOf;
    WrittenRules(rules, 0);
    assert CompileAll(ValidRules(EntriesOf(rules))) == CompileAll(rules);
    hide CompileAll;
  }

  lemma {:induction false} LoadedCompile(entries: seq<Entry>)
    ensures AllCompile(ValidRules(entries))
  {
    if entries != [] {
      LoadedCompile(entries[1..]);
    }
  }

  lemma {:induction false} AllCompileMembers(rules: seq<Rule>)
    ensures AllCompile(rules) <==> forall r :: r in rules ==> Compile(r).Some?
  {
    hide Compile;
    if forall r :: r in rules ==> Compile(r).Some? {
      assert forall i :: 0 <= i < |rules| ==> rules[i] in rules;
    }
  }

  lemma {:induction false} LoadedRulesCompile(file: File)
    requires LoadWritable(file).Some?
    ensures forall r :: r in LoadWritable(file).value ==> Compile(r).Some?
  {
    hide Compile;
    if file.Entries? {
      LoadedCompile(file.entries);
    }
    AllCompileMembers(LoadWritable(file).value);
  }

  lemma {:induction false} KeptCompile(custom: seq<Rule>, dropped: set<Rule>, n: nat)
    requires forall r :: r in custom ==> Compile(r).Some?
    ensures AllCompile(LastOf(Excluding(custom, dropped), n))
  {
    hide Compile, Excluding, AllCompile;
    var others := Excluding(custom, dropped);
    OthersNotDropped(custom, dropped);
    var kept := LastOf(others, n);
    assert forall r :: r in kept ==> r in others;
    AllCompileMembers(kept);
  }

  lemma {:induction false} OneMoreCompiles(rules: seq<Rule>, rule: Rule)
    requires AllCompile(rules)
    ensures AllCompile(rules + [rule]) <==> Compile(rule).Some?
  {
    hide Compile, AllCompile;
    AllCompileMembers(rules);
    AllCompileMembers(rules + [rule]);
    assert forall r :: r in rules + [rule] <==> r in rules || r == rule;
  }

  /** What an upsert is about to write compiles throughout exactly when the new rule does. */
  lemma {:induction false} UpsertCompiles(file: File, rule: Rule, replaced: Option<Rule>)
    requires LoadWritable(file).Some?
    ensures AllCompile(UpsertConfig(LoadWritable(file).value, rule, replaced)) <==> Compile(rule).Some?
  {
    hide Compile, UpsertConfig, LastOf, Excluding, LoadWritable, AllCompile, Dropped;
    var custom := LoadWritable(file).value;
    LoadedRulesCompile(file);
    UpsertMeaning(custom, rule, replaced);
    KeptCompile(custom, Dropped(rule, replaced), MAX_COUNT - 1);
    OneMoreCompiles(LastOf(Excluding(custom, Dropped(rule, replaced)), MAX_COUNT - 1), rule);
  }

  /** What a remove is about to write always compiles. */
  lemma {:induction false} RemoveCompiles(file: File, target: Rule)
    requires LoadWritable(file).Some?
    ensures AllCompile(RemoveConfig(LoadWritable(file).value, target))
  {
    hide Compile;
    var custom := LoadWritable(file).value;
    LoadedRulesCompile(file);
    OthersNotDropped(custom, {target});
    AllCompileMembers(RemoveConfig(custom, target));
  }

  // ----- The invariant -----

  predicate TokensKnown(s: Service) {
    && (forall t :: t in s.lookups ==> t < s.nextToken)
    && (s.slot.Loading? ==> s.slot.token in s.lookups && !s.lookups[s.slot.token].Done?)
  }

  /** The slot's value, or the value its lookup has read, is what the file gives. */
  predicate SlotFresh(defaults: seq<Rule>, s: Service) {
    match s.slot
    case Vacant => true
    case Filled(state) => state == Compute(defaults, s.file)
    case Loading(t) => t in s.lookups && s.lookups[t].Read? ==> s.lookups[t].state == Compute(defaults, s.file)
  }

  predicate Inv(defaults: seq<Rule>, s: Service) {
    && TokensKnown(s)
    && (s.holder.Written? && !s.edited ==> s.file == FileOf(s.holder.next))
    && (Quiet(s.holder) && !s.edited && !s.uncompiled && !s.behind ==> SlotFresh(defaults, s))
  }

  lemma {:induction false} StepKeepsInv(defaults: seq<Rule>, s: Service, e: Event)
    requires Inv(defaults, s)
    ensures Inv(defaults, Step(defaults, s, e))
  {
    hide Compute, UpsertConfig, RemoveConfig, SyncPlan, LoadWritable, FileOf, StepWriter, StepLookup;
    if e.BeginLookup? || e.LookupRead? || e.LookupDone? {
      LookupKeepsInv(defaults, s, e);
    } else if e.WriteConfig? || e.SetCache? || e.Publish? || e.SyncWrite? || e.SyncInvalidate? {
      WriterKeepsInv(defaults, s, e);
    }
  }

  lemma {:induction false} LookupKeepsInv(defaults: seq<Rule>, s: Service, e: Event)
    requires Inv(defaults, s) && (e.BeginLookup? || e.LookupRead? || e.LookupDone?)
    ensures Inv(defaults, StepLookup(defaults, s, e))
  {
    hide Compute, FileOf;
  }

  lemma {:induction false} WriterKeepsInv(defaults: seq<Rule>, s: Service, e: Event)
    requires Inv(defaults, s)
    requires e.WriteConfig? || e.SetCache? || e.Publish? || e.SyncWrite? || e.SyncInvalidate?
    ensures Inv(defaults, StepWriter(defaults, s, e))
  {
    hide Compute, RuntimeState, FileOf, AllCompile;
    if e.SetCache? && s.holder.Written? {
      WrittenAgrees(defaults, s.holder.next);
    }
  }

  lemma {:induction false} RunKeepsInv(defaults: seq<Rule>, s: Service, events: seq<Event>)
    requires Inv(defaults, s)
    ensures Inv(defaults, Run(defaults, s, events))
    decreases |events|
  {
    hide Inv, Step;
    if events != [] {
      StepKeepsInv(defaults, s, events[0]);
      RunKeepsInv(defaults, Step(defaults, s, events[0]), events[1..]);
    }
  }

  /**
   On every run, interruptions included: with the permit free, no edit since the
   last write or invalidation, no uncompiled rule behind the slot and no interrupted
   write since the slot was set, a filled cache is exactly what reading the file
   would give.
   */
  lemma {:induction false} CacheAgrees(defaults: seq<Rule>, file: File, events: seq<Event>)
    ensures var s := Run(defaults, Start(file), events);
            s.holder.Free? && !s.edited && !s.uncompiled && !s.behind && s.slot.Filled? ==>
              s.slot.state == Compute(defaults, s.file)
  {
    RunKeepsInv(defaults, Start(file), events);
  }

  predicate UpsertsCompile(events: seq<Event>) {
    forall i :: 0 <= i < |events| && events[i].BeginUpsert? ==> Compile(events[i].rule).Some?
  }

  predicate NoEdits(events: seq<Event>) {
    forall i :: 0 <= i < |events| ==> !events[i].Edit?
  }

  predicate NoInterrupts(events: seq<Event>) {
    forall i :: 0 <= i < |events| ==> !events[i].Interrupt?
  }

  /** What the holder of the permit is about to put in the cache compiles throughout. */
  predicate Compiled(s: Service) {
    !s.uncompiled &&
    match s.holder
    case Loaded(next) => AllCompile(next)
    case Written(next) => AllCompile(next)
    case _ => true
  }

  lemma {:induction false} StepKeepsCompiled(defaults: seq<Rule>, s: Service, e: Event)
    requires Compiled(s) && (e.BeginUpsert? ==> Compile(e.rule).Some?)
    ensures Compiled(Step(defaults, s, e))
    ensures !s.edited && !e.Edit? ==> !Step(defaults, s, e).edited
    ensures !s.behind && !e.Interrupt? ==> !Step(defaults, s, e).behind
  {
    hide Compute, RuntimeState, UpsertConfig, RemoveConfig, SyncPlan, LoadWritable, FileOf, AllCompile, Compile;
    if LoadWritable(s.file).Some? {
      if e.BeginUpsert? {
        UpsertCompiles(s.file, e.rule, e.replaced);
      } else if e.BeginRemove? {
        RemoveCompiles(s.file, e.target);
      }
    }
  }

  lemma {:induction false} RunKeepsCompiled(defaults: seq<Rule>, s: Service, events: seq<Event>)
    requires Compiled(s) && UpsertsCompile(events)
    ensures Compiled(Run(defaults, s, events))
    ensures !s.edited && NoEdits(events) ==> !Run(defaults, s, events).edited
    ensures !s.behind && NoInterrupts(events) ==> !Run(defaults, s, events).behind
    decreases |events|
  {
    hide Compiled, Step, Compile;
    if events != [] {
      assert UpsertsCompile(events[1..]) && (NoEdits(events) ==> NoEdits(events[1..]));
      assert NoInterrupts(events) ==> NoInterrupts(events[1..]);
      StepKeepsCompiled(defaults, s, events[0]);
      RunKeepsCompiled(defaults, Step(defaults, s, events[0]), events[1..]);
    }
  }

  /**
   When every upserted rule compiles, only the service changes the file and no
   operation is interrupted, a filled cache equals what reading the file would give
   whenever the permit is free.
   */
  lemma {:induction false} OwnRunsAgree(defaults: seq<Rule>, file: File, events: seq<Event>)
    requires UpsertsCompile(events)
    ensures var s := Run(defaults, Start(file), events);
            s.holder.Free? && (NoEdits(events) || !s.edited) && (NoInterrupts(events) || !s.behind) &&
                s.slot.Filled? ==>
              s.slot.state == Compute(defaults, s.file)
  {
    hide Run, Compute, UpsertsCompile, NoEdits, NoInterrupts;
    CacheAgrees(defaults, file, events);
    RunKeepsCompiled(defaults, Start(file), events);
  }

  /** Without an edit in between, an upsert leaves a right cache exactly when its rule compiles. */
  lemma {:induction false} UpsertCacheExact(defaults: seq<Rule>, s: Service, rule: Rule, replaced: Option<Rule>)
    requires s.holder.Free? && LoadWritable(s.file).Some?
    ensures var t := Run(defaults, s, [BeginUpsert(rule, replaced), WriteConfig(true), SetCache, Publish]);
            && t.holder.Free? && t.slot.Filled?
            && t.file == FileOf(UpsertConfig(LoadWritable(s.file).value, rule, replaced))
            && t.feed == s.feed + [t.slot.state]
            && (t.slot.state == Compute(defaults, t.file) <==> Compile(rule).Some?)
  {
    var next := UpsertConfig(LoadWritable(s.file).value, rule, replaced);
    UpsertMeaning(LoadWritable(s.file).value, rule, replaced);
    UpsertCompiles(s.file, rule, replaced);
    WrittenAgrees(defaults, next);
    BeginUpsertLoads(defaults, s, rule, replaced);
    WriteCycle(defaults, s, BeginUpsert(rule, replaced), next);
    hide Run, Step, UpsertConfig, RuntimeState, Compute, FileOf, LoadWritable, AllCompile, Compile;
  }

  lemma {:induction false} TwoKeyTokens()
    ensures S.KeyTokens("a+b") == ["a", "b"]
  {
    hide Trim, Split;
    assert Lower("a+b") == "a+b";
    SplitAtSeparator("a", "b", '+');
    SplitNoSeparator("b", '+');
    assert "a" + ['+'] + "b" == "a+b" && ["a"] + ["b"] == ["a", "b"];
    TrimFacts("a");
    TrimFacts("b");
    hide Lower;
    assert S.TrimAll(["a", "b"]) == ["a", "b"];
  }

  lemma {:induction false} TwoKeysDoNotParse()
    ensures S.Parse("a+b") == None
  {
    hide S.KeyTokens;
    TwoKeyTokens();
    assert ["a", "b"][1..] == ["b"];
  }

  /** Upserting a rule for the key `a+b`, which does not compile, leaves a cache that disagrees with the file. */
  lemma {:induction false} UncompiledUpsert(defaults: seq<Rule>, s: Service, command: string)
    requires s.holder.Free? && LoadWritable(s.file).Some?
    ensures var rule := Rule("a+b", command, None);
            var t := Run(defaults, s, [BeginUpsert(rule, None), WriteConfig(true), SetCache, Publish]);
            t.slot.Filled? && t.slot.state != Compute(defaults, t.file)
  {
    TwoKeysDoNotParse();
    hide S.Parse, Run, Compute, LoadWritable;
    UpsertCacheExact(defaults, s, Rule("a+b", command, None), None);
  }

  lemma {:induction false} BeginUpsertLoads(defaults: seq<Rule>, s: Service, rule: Rule, replaced: Option<Rule>)
    requires s.holder.Free? && LoadWritable(s.file).Some?
    ensures Step(defaults, s, BeginUpsert(rule, replaced)) ==
            s.(holder := Loaded(UpsertConfig(LoadWritable(s.file).value, rule, replaced)))
  {
    hide UpsertConfig, LoadWritable;
  }

  lemma {:induction false} BeginRemoveLoads(defaults: seq<Rule>, s: Service, target: Rule)
    requires s.holder.Free? && LoadWritable(s.file).Some?
    ensures Step(defaults, s, BeginRemove(target)) ==
            s.(holder := Loaded(RemoveConfig(LoadWritable(s.file).value, target)))
  {
    hide RemoveConfig, LoadWritable;
  }

  /** A loaded change that is written, put in the cache and published. */
  lemma {:induction false} WriteCycle(defaults: seq<Rule>, s: Service, begin: Event, next: seq<Rule>)
    requires |next| <= MAX_COUNT && Step(defaults, s, begin) == s.(holder := Loaded(next))
    ensures var state := RuntimeState(defaults, next, []);
            Run(defaults, s, [begin, WriteConfig(true), SetCache, Publish]) ==
            s.(file := FileOf(next), edited := false, slot := Filled(state), uncompiled := !AllCompile(next),
               behind := false, feed := s.feed + [state], holder := Free)
  {
    hide RuntimeState, FileOf, AllCompile, UpsertConfig, RemoveConfig, LoadWritable, Compute, SyncPlan, Run;
    var state := RuntimeState(defaults, next, []);
    var s1 := s.(holder := Loaded(next));
    var s2 := s1.(file := FileOf(next), edited := false, holder := Written(next));
    var s3 := s2.(slot := Filled(state), uncompiled := !AllCompile(next), behind := false, holder := CacheSet(state));
    assert Step(defaults, s1, WriteConfig(true)) == s2;
    assert Step(defaults, s2, SetCache) == s3;
    FourSteps(defaults, s, begin, WriteConfig(true), SetCache, Publish);
  }

  lemma {:induction false} RunCons(defaults: seq<Rule>, s: Service, e: Event, rest: seq<Event>)
    ensures Run(defaults, s, [e] + rest) == Run(defaults, Step(defaults, s, e), rest)
    ensures Run(defaults, s, []) == s
  {
    hide Step;
    assert ([e] + rest)[1..] == rest;
  }

  lemma {:induction false} ThreeSteps(defaults: seq<Rule>, s: Service, a: Event, b: Event, c: Event)
    ensures Run(defaults, s, [a, b, c]) == Step(defaults, Step(defaults, Step(defaults, s, a), b), c)
  {
    hide Step, Run;
    assert [a, b, c] == [a] + ([b] + ([c] + []));
    var s1 := Step(defaults, s, a);
    var s2 := Step(defaults, s1, b);
    RunCons(defaults, s, a, [b] + ([c] + []));
    RunCons(defaults, s1, b, [c] + []);
    RunCons(defaults, s2, c, []);
    RunCons(defaults, Step(defaults, s2, c), c, []);
  }

  lemma {:induction false} FiveSteps(defaults: seq<Rule>, s: Service, a: Event, b: Event, c: Event, d: Event, e: Event)
    ensures Run(defaults, s, [a, b] + [c, d, e]) ==
            Step(defaults, Step(defaults, Step(defaults, Step(defaults, Step(defaults, s, a), b), c), d), e)
  {
    hide Step, Run;
    assert [a, b] + [c, d, e] == [a] + ([b] + [c, d, e]);
    RunCons(defaults, s, a, [b] + [c, d, e]);
    RunCons(defaults, Step(defaults, s, a), b, [c, d, e]);
    ThreeSteps(defaults, Step(defaults, Step(defaults, s, a), b), c, d, e);
  }

  /** An uninterrupted lookup on a vacant slot. */
  lemma {:induction false} LookupCycle(defaults: seq<Rule>, s: Service)
    requires s.slot.Vacant?
    ensures var t, state := s.nextToken, Compute(defaults, s.file);
            Run(defaults, s, [BeginLookup, LookupRead(t), LookupDone(t)]) ==
            s.(slot := Filled(state), lookups := s.lookups[t := Done(state)], nextToken := t + 1)
  {
    hide Compute, Run;
    var t, state := s.nextToken, Compute(defaults, s.file);
    var s1 := Step(defaults, s, BeginLookup);
    var s2 := Step(defaults, s1, LookupRead(t));
    assert s1 == s.(slot := Loading(t), lookups := s.lookups[t := Started], nextToken := t + 1);
    assert s2 == s1.(lookups := s.lookups[t := Read(state)]);
    assert s2.lookups[t := Done(state)] == s.lookups[t := Done(state)];
    ThreeSteps(defaults, s, BeginLookup, LookupRead(t), LookupDone(t));
  }

  lemma {:induction false} FourSteps(defaults: seq<Rule>, s: Service, a: Event, b: Event, c: Event, d: Event)
    ensures Run(defaults, s, [a, b, c, d]) ==
            Step(defaults, Step(defaults, Step(defaults, Step(defaults, s, a), b), c), d)
  {
    hide Step, Run;
    assert [a, b, c, d] == [a] + ([b] + ([c] + ([d] + [])));
    RunCons(defaults, s, a, [b] + ([c] + ([d] + [])));
    var s1 := Step(defaults, s, a);
    RunCons(defaults, s1, b, [c] + ([d] + []));
    var s2 := Step(defaults, s1, b);
    RunCons(defaults, s2, c, [d] + []);
    RunCons(defaults, Step(defaults, s2, c), d, []);
    RunCons(defaults, Step(defaults, Step(defaults, s2, c), d), d, []);
  }

  /** Two lists of custom rules that give the same bindings at run time. */
  predicate SameBindings(defaults: seq<Rule>, a: seq<Rule>, b: seq<Rule>) {
    MergeWithDefaults(defaults, CompileAll(a)) == MergeWithDefaults(defaults, CompileAll(b))
  }

  lemma {:induction false} ComputedState(defaults: seq<Rule>, file: File)
    ensures Compute(defaults, file) ==
            ConfigState(MergeWithDefaults(defaults, CompileAll(LoadRuntime(file).0)), LoadRuntime(file).1)
  {
    hide MergeWithDefaults, CompileAll, LoadRuntime;
  }

  lemma {:induction false} SetAgrees(defaults: seq<Rule>, next: seq<Rule>, file: File)
    ensures RuntimeState(defaults, next, []) == Compute(defaults, file) <==>
            LoadRuntime(file).1 == [] && SameBindings(defaults, next, LoadRuntime(file).0)
  {
    hide MergeWithDefaults, CompileAll, LoadRuntime;
  }

  lemma {:induction false} EditUnnoticed(defaults: seq<Rule>, s: Service, next: seq<Rule>, to: File)
    requires s.holder == Written(next)
    ensures var state := RuntimeState(defaults, next, []);
            Run(defaults, s, [Edit(to), StartInvalidate, SetCache, Publish]) ==
            s.(file := to, edited := true, slot := Filled(state), uncompiled := !AllCompile(next), behind := false,
               feed := s.feed + [state], holder := Free)
  {
    hide RuntimeState, AllCompile, Compute, Run;
    var state := RuntimeState(defaults, next, []);
    var s1 := s.(file := to, edited := true);
    var s2 := s1.(slot := Vacant, uncompiled := false, behind := false);
    var s3 := s2.(slot := Filled(state), uncompiled := !AllCompile(next), behind := false, holder := CacheSet(state));
    assert Step(defaults, s, Edit(to)) == s1;
    assert Step(defaults, s1, StartInvalidate) == s2;
    assert Step(defaults, s2, SetCache) == s3;
    FourSteps(defaults, s, Edit(to), StartInvalidate, SetCache, Publish);
  }

  /**
   Between a write and its cache update, an edit followed by the invalidation in `start`
   is overlooked. The cache is right exactly when the edited file has no issue and gives
   the same bindings as the rules written before.
   */
  lemma {:induction false} EditSlipsBy(defaults: seq<Rule>, s: Service, next: seq<Rule>, to: File)
    requires s.holder == Written(next)
    ensures var state := RuntimeState(defaults, next, []);
            var t := Run(defaults, s, [Edit(to), StartInvalidate, SetCache, Publish]);
            && t == s.(file := to, edited := true, slot := Filled(state), uncompiled := !AllCompile(next),
                       behind := false, feed := s.feed + [state], holder := Free)
            && (t.slot.state == Compute(defaults, t.file) <==>
                  LoadRuntime(to).1 == [] && SameBindings(defaults, next, LoadRuntime(to).0))
  {
    hide RuntimeState, AllCompile, Compute, Run, SameBindings, LoadRuntime;
    EditUnnoticed(defaults, s, next, to);
    SetAgrees(defaults, next, to);
  }

  lemma {:induction false} RemoveFromMissing(defaults: seq<Rule>, target: Rule)
    ensures Step(defaults, Step(defaults, Start(Missing), BeginRemove(target)), WriteConfig(true)) ==
            Start(Missing).(file := FileOf([]), holder := Written([]))
  {
    hide Compute, RuntimeState, SyncPlan, UpsertConfig;
    assert RemoveConfig([], target) == [];
    assert Step(defaults, Start(Missing), BeginRemove(target)) == Start(Missing).(holder := Loaded([]));
  }

  /**
   The invalidation in `start` does not take the permit. So "no edit since the last
   write or invalidation" alone does not make a filled cache agree with the file.
   */
  lemma {:induction false} UnguardedInvalidation(defaults: seq<Rule>, target: Rule)
    ensures var events := [BeginRemove(target)] +
            ([WriteConfig(true)] + [Edit(Malformed), StartInvalidate, SetCache, Publish]);
            var s := Run(defaults, Start(Missing), events);
            s.holder.Free? && s.slot.Filled? && s.slot.state != Compute(defaults, s.file)
  {
    var last := [Edit(Malformed), StartInvalidate, SetCache, Publish];
    var s1 := Step(defaults, Start(Missing), BeginRemove(target));
    var s2 := Start(Missing).(file := FileOf([]), holder := Written([]));
    RemoveFromMissing(defaults, target);
    RunCons(defaults, Start(Missing), BeginRemove(target), [WriteConfig(true)] + last);
    RunCons(defaults, s1, WriteConfig(true), last);
    EditUnnoticed(defaults, s2, [], Malformed);
    MalformedDiffers(defaults);
    hide Run, Step, Compute, RuntimeState, FileOf, AllCompile;
  }

  lemma {:induction false} MalformedDiffers(defaults: seq<Rule>)
    ensures RuntimeState(defaults, [], []) != Compute(defaults, Malformed)
  {
    assert RuntimeState(defaults, [], []).issues == [] && Compute(defaults, Malformed).issues == [MalformedConfig];
  }

  // ----- Interruption -----

  lemma {:induction false} WrittenIssues(kept: seq<Rule>, rule: Rule, index: nat)
    requires AllCompile(kept)
    ensures EntryIssues(EntriesOf(kept + [rule]), index) ==
            if Compile(rule).Some? then [] else [InvalidEntry(index + |kept|)]
  {
    hide Compile, ValidRules, EntriesOf, EntryIssues, AllCompile;
    NoEntries(index + 1);
    if kept == [] {
      assert kept + [rule] == [rule] + [];
      WrittenEntries(rule, [], index);
    } else {
      var first, rest := kept[0], kept[1..];
      assert kept == [first] + rest && kept + [rule] == [first] + (rest + [rule]);
      AllCompileCons(first, rest);
      WrittenEntries(first, rest + [rule], index);
      WrittenIssues(rest, rule, index + 1);
    }
  }

  lemma {:induction false} WrittenState(defaults: seq<Rule>, rules: seq<Rule>)
    ensures Compute(defaults, FileOf(rules)) ==
            ConfigState(MergeWithDefaults(defaults, CompileAll(rules)), EntryIssues(EntriesOf(rules), 0))
  {
    hide CompileEach, MergeWithDefaults, EntryIssues, ValidRules, EntriesOf, AllCompile, LastOf;
    WrittenRules(rules, 0);
    assert CompileAll(ValidRules(EntriesOf(rules))) == CompileAll(rules);
    hide CompileAll;
  }

  /** The issues a reload reports after an upsert: the new rule alone, and only if it does not compile. */
  lemma {:induction false} UpsertIssues(file: File, rule: Rule, replaced: Option<Rule>)
    requires LoadWritable(file).Some?
    ensures var next := UpsertConfig(LoadWritable(file).value, rule, replaced);
            |next| > 0 &&
            EntryIssues(EntriesOf(next), 0) == if Compile(rule).Some? then [] else [InvalidEntry(|next| - 1)]
  {
    hide Compile, UpsertConfig, LastOf, Excluding, LoadWritable, AllCompile, Dropped, EntriesOf, EntryIssues;
    var custom := LoadWritable(file).value;
    var kept := LastOf(Excluding(custom, Dropped(rule, replaced)), MAX_COUNT - 1);
    LoadedRulesCompile(file);
    UpsertMeaning(custom, rule, replaced);
    KeptCompile(custom, Dropped(rule, replaced), MAX_COUNT - 1);
    WrittenIssues(kept, rule, 0);
  }

  /** Reloading what was written for `file` gives the state of `file` exactly on these two conditions. */
  lemma {:induction false} SameState(defaults: seq<Rule>, file: File, next: seq<Rule>)
    requires LoadWritable(file).Some?
    ensures Compute(defaults, file) == Compute(defaults, FileOf(next)) <==>
            LoadRuntime(file).1 == EntryIssues(EntriesOf(next), 0) &&
            SameBindings(defaults, LoadWritable(file).value, next)
  {
    hide MergeWithDefaults, CompileAll, EntryIssues, EntriesOf, ValidRules;
    assert LoadRuntime(file).0 == LoadWritable(file).value;
    ComputedState(defaults, file);
    WrittenState(defaults, next);
    hide Compute, FileOf, LoadRuntime, LoadWritable;
  }

  /**
   An upsert stopped between its write and its cache update: the old slot stays, and
   the permit is free again. The slot is still right exactly when the file had just the
   issues that the new rule makes and the upsert changes no binding.
   */
  lemma {:induction false} InterruptedUpsert(defaults: seq<Rule>, s: Service, rule: Rule, replaced: Option<Rule>)
    requires s.holder.Free? && LoadWritable(s.file).Some? && s.slot == Filled(Compute(defaults, s.file))
    ensures var custom := LoadWritable(s.file).value;
            var next := UpsertConfig(custom, rule, replaced);
            var t := Run(defaults, s, [BeginUpsert(rule, replaced), WriteConfig(true), Interrupt]);
            && t.holder.Free? && t.slot == s.slot && t.feed == s.feed && t.file == FileOf(next) && |next| > 0
            && (t.slot.state == Compute(defaults, t.file) <==>
                  LoadRuntime(s.file).1 == (if Compile(rule).Some? then [] else [InvalidEntry(|next| - 1)]) &&
                  SameBindings(defaults, custom, next))
  {
    var custom := LoadWritable(s.file).value;
    var next := UpsertConfig(custom, rule, replaced);
    UpsertMeaning(custom, rule, replaced);
    UpsertIssues(s.file, rule, replaced);
    SameState(defaults, s.file, next);
    BeginUpsertLoads(defaults, s, rule, replaced);
    hide UpsertConfig, RuntimeState, Compute, FileOf, LoadWritable, LoadRuntime, AllCompile, Compile, SameBindings;
    hide Excluding, LastOf, Step, Run, EntryIssues, EntriesOf;
    ThreeSteps(defaults, s, BeginUpsert(rule, replaced), WriteConfig(true), Interrupt);
    InterruptedWrite(defaults, s, next);
  }

  lemma {:induction false} StoppedRemove(defaults: seq<Rule>, s: Service, target: Rule)
    requires s.holder.Free? && LoadWritable(s.file).Some?
    ensures var next := RemoveConfig(LoadWritable(s.file).value, target);
            Run(defaults, s, [BeginRemove(target), WriteConfig(true), Interrupt]) ==
            if |next| <= MAX_COUNT
            then s.(file := FileOf(next), edited := false, behind := s.behind || !s.slot.Vacant?)
            else s
  {
    hide Run, Step, RemoveConfig, FileOf, LoadWritable;
    var next := RemoveConfig(LoadWritable(s.file).value, target);
    BeginRemoveLoads(defaults, s, target);
    ThreeSteps(defaults, s, BeginRemove(target), WriteConfig(true), Interrupt);
    if |next| <= MAX_COUNT {
      InterruptedWrite(defaults, s, next);
    } else {
      RefusedWrite(defaults, s, next);
    }
  }

  lemma {:induction false} RefusedWrite(defaults: seq<Rule>, s: Service, next: seq<Rule>)
    requires s.holder.Free? && |next| > MAX_COUNT
    ensures Step(defaults, Step(defaults, s.(holder := Loaded(next)), WriteConfig(true)), Interrupt) == s
  {
    hide FileOf;
    assert Step(defaults, s.(holder := Loaded(next)), WriteConfig(true)) == s;
  }

  /** The same for a remove, which writes only rules that compile. A list that is too long is not written. */
  lemma {:induction false} InterruptedRemove(defaults: seq<Rule>, s: Service, target: Rule)
    requires s.holder.Free? && LoadWritable(s.file).Some? && s.slot == Filled(Compute(defaults, s.file))
    ensures var custom := LoadWritable(s.file).value;
            var next := RemoveConfig(custom, target);
            var t := Run(defaults, s, [BeginRemove(target), WriteConfig(true), Interrupt]);
            && t.holder.Free? && t.slot == s.slot && t.feed == s.feed
            && t.file == (if |next| <= MAX_COUNT then FileOf(next) else s.file)
            && (t.slot.state == Compute(defaults, t.file) <==>
                  |next| > MAX_COUNT || (LoadRuntime(s.file).1 == [] && SameBindings(defaults, custom, next)))
  {
    hide RemoveConfig, Compute, FileOf, LoadWritable, LoadRuntime, AllCompile, EntryIssues, EntriesOf;
    hide SameBindings, Run;
    var next := RemoveConfig(LoadWritable(s.file).value, target);
    RemoveCompiles(s.file, target);
    WrittenRules(next, 0);
    SameState(defaults, s.file, next);
    StoppedRemove(defaults, s, target);
  }

  lemma {:induction false} InterruptedWrite(defaults: seq<Rule>, s: Service, next: seq<Rule>)
    requires |next| <= MAX_COUNT
    ensures var t := Step(defaults, Step(defaults, s.(holder := Loaded(next)), WriteConfig(true)), Interrupt);
            t == s.(file := FileOf(next), edited := false, holder := Free, behind := s.behind || !s.slot.Vacant?)
  {
    hide FileOf;
  }

  /** A lookup on a missing file, and then an interrupted upsert. */
  function InterruptedRun(rule: Rule): seq<Event> {
    [BeginLookup, LookupRead(0), LookupDone(0)] + [BeginUpsert(rule, None), WriteConfig(true), Interrupt]
  }

  lemma {:induction false} MissingFile(defaults: seq<Rule>, rule: Rule)
    ensures LoadWritable(Missing) == Some([]) && UpsertConfig([], rule, None) == [rule]
    ensures Compute(defaults, Missing) == ConfigState(CompileAll(defaults), [])
  {
    assert CompileAll([]) == [];
    assert Excluding([], Dropped(rule, None)) == [];
    assert [] + [rule] == [rule];
  }

  lemma {:induction false} RunAppend(defaults: seq<Rule>, s: Service, a: seq<Event>, b: seq<Event>)
    ensures Run(defaults, s, a + b) == Run(defaults, Run(defaults, s, a), b)
    decreases |a|
  {
    hide Step;
    if a == [] {
      assert a + b == b;
    } else {
      RunAppend(defaults, Step(defaults, s, a[0]), a[1..], b);
      assert (a + b)[1..] == a[1..] + b;
    }
  }

  /**
   Without any edit, an interrupted upsert of a rule that compiles leaves a filled
   cache that disagrees with the file, when the rule adds a binding to the defaults.
   */
  lemma {:induction false} InterruptedWriteUnseen(defaults: seq<Rule>, rule: Rule)
    requires Compile(rule).Some? && Compile(rule).value !in CompileAll(defaults)
    ensures var s := Run(defaults, Start(Missing), InterruptedRun(rule));
            s.holder.Free? && !s.edited && !s.uncompiled && s.slot.Filled? && s.slot.state != Compute(defaults, s.file)
  {
    var first, second := [BeginLookup, LookupRead(0), LookupDone(0)],
        [BeginUpsert(rule, None), WriteConfig(true), Interrupt];
    var s := Run(defaults, Start(Missing), first);
    LookupCycle(defaults, Start(Missing));
    RunAppend(defaults, Start(Missing), first, second);
    MissingFile(defaults, rule);
    InterruptedUpsert(defaults, s, rule, None);
    InterruptKeepsFlags(defaults, s, rule);
    RuleChangesState(defaults, rule);
    hide Run, Compute, FileOf, CompileAll, Compile, UpsertConfig, LoadWritable;
  }

  lemma {:induction false} InterruptKeepsFlags(defaults: seq<Rule>, s: Service, rule: Rule)
    requires s.holder.Free? && !s.edited && !s.uncompiled
    ensures var t := Run(defaults, s, [BeginUpsert(rule, None), WriteConfig(true), Interrupt]);
            !t.edited && !t.uncompiled
  {
    hide UpsertConfig, RuntimeState, Compute, FileOf, LoadWritable, AllCompile, Compile, Writable;
    ThreeSteps(defaults, s, BeginUpsert(rule, None), WriteConfig(true), Interrupt);
  }

  lemma {:induction false} RuleChangesState(defaults: seq<Rule>, rule: Rule)
    requires Compile(rule).Some? && Compile(rule).value !in CompileAll(defaults)
    ensures Compute(defaults, FileOf([rule])) != ConfigState(CompileAll(defaults), [])
  {
    hide Compile, MergeWithDefaults, CompileAll, CompileEach;
    AllCompileCons(rule, []);
    NoEntries(0);
    assert [rule] + [] == [rule];
    WrittenAgrees(defaults, [rule]);
    MissingFile(defaults, rule);
    UpsertTakesEffect(defaults, [], rule, None);
    var runtime := MergeWithDefaults(defaults, CompileAll([rule]));
    assert runtime[|runtime| - 1] in runtime;
    hide Compute, FileOf, AllCompile;
  }

  // ----- Startup sync -----

  lemma {:induction false} AllHaveCommand(defaults: seq<Rule>, rules: seq<Rule>)
    requires forall r :: r in defaults ==> r in rules
    ensures MissingDefaults(defaults, rules) == []
  {
    if defaults != [] {
      hide Clashes;
      AllHaveCommand(defaults[1..], rules);
      assert defaults[0] in rules;
      var i :| 0 <= i < |rules| && rules[i] == defaults[0];
      assert rules[i].command == defaults[0].command;
    }
  }

  /** After what startup writes, the next startup writes nothing. */
  lemma {:induction false} SyncOnce(defaults: seq<Rule>, file: File)
    requires SyncPlan(defaults, file).Some?
    ensures SyncPlan(defaults, FileOf(SyncPlan(defaults, file).value)) == None
  {
    var next := SyncPlan(defaults, file).value;
    WrittenRules(next, 0);
    if file.Missing? {
      AllHaveCommand(defaults, next);
    } else {
      BackfillOnce(defaults, LoadRuntime(file).0);
    }
    hide CompileEach, EntryIssues, ValidRules, EntriesOf, AllCompile, MissingDefaults;
  }

  /** Startup never drops a rule that the file holds: what it writes starts with all of them. */
  lemma {:induction false} SyncKeepsUserRules(defaults: seq<Rule>, file: File)
    requires SyncPlan(defaults, file).Some? && !file.Missing?
    ensures file.Entries? && FileOf(ValidRules(file.entries)) == file
    ensures ValidRules(file.entries) <= SyncPlan(defaults, file).value && |SyncPlan(defaults, file).value| <= MAX_COUNT
  {
    NoIssuesNoJunk(file.entries, 0);
    BackfillMeaning(defaults, ValidRules(file.entries));
    hide MissingDefaults, HasCommand, Clashes;
  }

  lemma {:induction false} EntriesOfCons(rule: Rule, rules: seq<Rule>)
    ensures EntriesOf([rule] + rules) == [RuleEntry(rule)] + EntriesOf(rules)
  {
    assert ([rule] + rules)[1..] == rules;
  }

  lemma {:induction false} NoIssueInFront(entries: seq<Entry>, index: nat)
    requires entries != [] && EntryIssues(entries, index) == []
    ensures ValidEntry(entries[0]) && EntryIssues(entries[1..], index + 1) == []
    ensures ValidRules(entries) == [entries[0].rule] + ValidRules(entries[1..])
  {
    hide ValidEntry;
  }

  lemma {:induction false} NoIssuesNoJunk(entries: seq<Entry>, index: nat)
    requires EntryIssues(entries, index) == []
    ensures EntriesOf(ValidRules(entries)) == entries
  {
    hide ValidEntry, ValidRules, EntryIssues, EntriesOf;
    NoEntries(index);
    if entries != [] {
      NoIssueInFront(entries, index);
      NoIssuesNoJunk(entries[1..], index + 1);
      EntriesOfCons(entries[0].rule, ValidRules(entries[1..]));
      assert entries == [entries[0]] + entries[1..];
    }
  }

  lemma {:induction false} NoEntries(index: nat)
    ensures EntriesOf([]) == [] && ValidRules([]) == [] && EntryIssues([], index) == []
    ensures CompileEach([]) == [] && AllCompile([])
  {
  }
}
