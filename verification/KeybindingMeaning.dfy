/**
 What the lists of the keybindings service hold, by position, and what a whole remove
 and a whole startup sync leave behind.
 */
module KeybindingMeaning {
  import opened Outcomes
  import opened Sequences
  import opened KeybindingRules
  import opened KeybindingRuleLaws
  import opened KeybindingProtocol
  import opened KeybindingCache
  import L = WhenLexis
  import G = WhenGrammar

  // ----- Upserting and removing -----

  /** Removing leaves exactly the rules other than `target`, in order. */
  lemma {:induction false} RemoveInOrder(custom: seq<Rule>, target: Rule)
    ensures exists at :: InOrder(custom, {target}, at, RemoveConfig(custom, target))
  {
    hide InOrder, Excluding, KeptAt;
    ExcludingInOrder(custom, {target});
    var at := KeptAt(custom, {target});
    assert InOrder(custom, {target}, at, RemoveConfig(custom, target));
  }

  /** Upserting leaves the last 255 of the rules that are neither the new nor the replaced one, and then the new one. */
  lemma {:induction false} UpsertInOrder(custom: seq<Rule>, rule: Rule, replaced: Option<Rule>)
    ensures exists dropped, at, others ::
              && (forall r :: r in dropped <==> r == rule || replaced == Some(r))
              && InOrder(custom, dropped, at, others)
              && UpsertConfig(custom, rule, replaced) == others[if |others| > 255 then |others| - 255 else 0..] + [rule]
  {
    hide InOrder, Excluding, KeptAt, UpsertConfig, Dropped;
    var dropped := Dropped(rule, replaced);
    DroppedMeaning(rule, replaced);
    ExcludingInOrder(custom, dropped);
    UpsertMeaning(custom, rule, replaced);
    var at, others := KeptAt(custom, dropped), Excluding(custom, dropped);
    assert others[0..] == others;
    assert InOrder(custom, dropped, at, others);
  }

  lemma {:induction false} DroppedMeaning(rule: Rule, replaced: Option<Rule>)
    ensures forall r :: r in Dropped(rule, replaced) <==> r == rule || replaced == Some(r)
  {
  }

  // ----- Compiling -----

  /**
   A rule compiles when its key parses and its condition, if it has one, is the text of
   an expression; the binding has the rule's command, that shortcut and that expression.
   */
  lemma {:induction false} CompileMeaning(rule: Rule, b: Resolved)
    ensures Compile(rule) == Some(b) <==>
            && b.command == rule.command && S.Parse(rule.key) == Some(b.shortcut)
            && (rule.condition.None? <==> b.whenAst.None?)
            && (rule.condition.Some? && b.whenAst.Some? ==>
                  exists ts :: L.Spells(rule.condition.value, ts) && G.Says(ts, b.whenAst.value))
  {
    hide S.Parse, W.Parse, L.Spells, G.Says;
    if rule.condition.Some? && b.whenAst.Some? {
      L.ParserIsGrammarOfTexts(rule.condition.value, b.whenAst.value);
    }
  }

  predicate Compiles(rule: Rule) {
    Compile(rule).Some?
  }

  /** `bindings` are those of the rules before `n` that compile, in order. */
  predicate AreCompiled(rules: seq<Rule>, n: nat, bindings: seq<Resolved>)
    requires n <= |rules|
  {
    var at := Positions(rules, n, Compiles);
    |bindings| == |at| && forall j :: 0 <= j < |at| ==> Compile(rules[at[j]]) == Some(bindings[j])
  }

  lemma {:induction false} CompileEachInOrder(rules: seq<Rule>, n: nat)
    requires n <= |rules|
    ensures AreCompiled(rules, n, CompileEach(rules[..n]))
  {
    hide Compile, CompileEach;
    if n == 0 {
      NothingCompiled();
    } else {
      CompileEachInOrder(rules, n - 1);
      assert rules[..n] == rules[..n - 1] + [rules[n - 1]];
      CompileEachAppend(rules[..n - 1], [rules[n - 1]]);
      CompileOne(rules[n - 1]);
    }
  }

  lemma {:induction false} NothingCompiled()
    ensures CompileEach([]) == []
  {
  }

  /** At most 256 bindings, those of the last rules that compile, in order. */
  lemma {:induction false} CompileAllInOrder(rules: seq<Rule>)
    ensures exists all :: AreCompiled(rules, |rules|, all) &&
                          CompileAll(rules) == all[if |all| > 256 then |all| - 256 else 0..]
  {
    hide AreCompiled, CompileEach;
    CompileEachInOrder(rules, |rules|);
    assert rules[..|rules|] == rules;
    var all := CompileEach(rules);
    assert all[0..] == all;
  }

  // ----- Merging with the defaults -----

  function Keeps(custom: seq<Resolved>): Resolved -> bool {
    (b: Resolved) => forall i :: 0 <= i < |custom| ==> custom[i].command != b.command
  }

  lemma {:induction false} NotOverriddenPicks(defaults: seq<Resolved>, custom: seq<Resolved>)
    ensures Picks(defaults, Keeps(custom), NotOverridden(defaults, CommandsOf(custom)))
  {
    if defaults == [] {
      PicksNone(Keeps(custom));
    } else {
      hide Picks;
      NotOverriddenPicks(defaults[1..], custom);
      PicksCons(defaults, Keeps(custom), NotOverridden(defaults[1..], CommandsOf(custom)));
      assert Keeps(custom)(defaults[0]) <==> defaults[0].command !in CommandsOf(custom);
    }
  }

  /**
   The runtime bindings are the last 256 of: the defaults whose command no custom
   binding has, in order, and then the custom bindings.
   */
  lemma {:induction false} MergeInOrder(defaults: seq<Rule>, custom: seq<Resolved>)
    ensures exists kept :: Picks(CompileAll(defaults), Keeps(custom), kept) &&
                           var all := kept + custom;
                           MergeWithDefaults(defaults, custom) == all[if |all| > 256 then |all| - 256 else 0..]
  {
    var kept := NotOverridden(CompileAll(defaults), CommandsOf(custom));
    NotOverriddenPicks(CompileAll(defaults), custom);
    var all := kept + custom;
    assert all[0..] == all;
    if custom == [] {
      NothingOverridden(CompileAll(defaults), CommandsOf(custom));
      assert all == CompileAll(defaults);
    }
    hide Picks, CompileAll, NotOverridden;
  }

  lemma {:induction false} NothingOverridden(defaults: seq<Resolved>, commands: set<string>)
    requires commands == {}
    ensures NotOverridden(defaults, commands) == defaults
  {
    if defaults != [] {
      NothingOverridden(defaults[1..], commands);
      assert defaults == [defaults[0]] + defaults[1..];
    }
  }

  // ----- Reading the file -----

  function Bad(entry: Entry): bool {
    !ValidEntry(entry)
  }

  /** The rules of the valid entries before `n`, in order. */
  predicate HasRules(entries: seq<Entry>, n: nat, rules: seq<Rule>)
    requires n <= |entries|
  {
    var good := Positions(entries, n, ValidEntry);
    |rules| == |good| && forall j :: 0 <= j < |good| ==> entries[good[j]] == RuleEntry(rules[j])
  }

  /** One issue for each other entry before `n`, with its index. */
  predicate HasIssues(entries: seq<Entry>, n: nat, issues: seq<Issue>)
    requires n <= |entries|
  {
    var bad := Positions(entries, n, Bad);
    |issues| == |bad| && forall j :: 0 <= j < |bad| ==> issues[j] == InvalidEntry(bad[j])
  }

  lemma {:induction false} RulesAppend(entries: seq<Entry>, last: Entry)
    ensures ValidRules(entries + [last]) == ValidRules(entries) + if ValidEntry(last) then [last.rule] else []
  {
    hide ValidEntry;
    if entries == [] {
      assert entries + [last] == [last] && [last][1..] == [];
    } else {
      RulesAppend(entries[1..], last);
      assert (entries + [last])[1..] == entries[1..] + [last];
    }
  }

  lemma {:induction false} IssuesAppend(entries: seq<Entry>, last: Entry, index: nat)
    ensures EntryIssues(entries + [last], index) ==
            EntryIssues(entries, index) + if ValidEntry(last) then [] else [InvalidEntry(index + |entries|)]
    decreases |entries|
  {
    hide ValidEntry, EntryIssues;
    IssuesCons(entries + [last], index);
    if entries == [] {
      assert entries + [last] == [last] && [last][1..] == [];
      NoEntries(index);
      NoEntries(index + 1);
    } else {
      IssuesCons(entries, index);
      IssuesAppend(entries[1..], last, index + 1);
      assert (entries + [last])[1..] == entries[1..] + [last];
    }
  }

  lemma {:induction false} IssuesCons(entries: seq<Entry>, index: nat)
    requires entries != []
    ensures EntryIssues(entries, index) ==
            (if ValidEntry(entries[0]) then [] else [InvalidEntry(index)]) + EntryIssues(entries[1..], index + 1)
  {
    hide ValidEntry;
  }

  lemma {:induction false} ReadsRules(entries: seq<Entry>, n: nat)
    requires n <= |entries|
    ensures HasRules(entries, n, ValidRules(entries[..n]))
  {
    hide ValidRules;
    if n == 0 {
      NoEntries(0);
    } else {
      ReadsRules(entries, n - 1);
      assert entries[..n] == entries[..n - 1] + [entries[n - 1]];
      RulesAppend(entries[..n - 1], entries[n - 1]);
      assert ValidEntry(entries[n - 1]) ==> entries[n - 1].RuleEntry?;
      hide ValidEntry;
    }
  }

  lemma {:induction false} ReadsIssues(entries: seq<Entry>, n: nat)
    requires n <= |entries|
    ensures HasIssues(entries, n, EntryIssues(entries[..n], 0))
  {
    hide EntryIssues, ValidEntry;
    if n == 0 {
      NoEntries(0);
    } else {
      ReadsIssues(entries, n - 1);
      assert entries[..n] == entries[..n - 1] + [entries[n - 1]];
      IssuesAppend(entries[..n - 1], entries[n - 1], 0);
    }
  }

  /** A missing file is empty; a malformed one has that issue and stops any change; any other is read entry by entry. */
  lemma {:induction false} LoadMeaning(file: File)
    ensures var (rules, issues) := LoadRuntime(file);
            match file
            case Missing => rules == [] && issues == [] && LoadWritable(file) == Some([])
            case Malformed => rules == [] && issues == [MalformedConfig] && LoadWritable(file) == None
            case Entries(entries) =>
              && HasRules(entries, |entries|, rules) && HasIssues(entries, |entries|, issues)
              && LoadWritable(file) == Some(rules)
  {
    if file.Entries? {
      ReadsRules(file.entries, |file.entries|);
      ReadsIssues(file.entries, |file.entries|);
      assert file.entries[..|file.entries|] == file.entries;
    }
  }

  // ----- Whole operations -----

  /**
   An uninterrupted remove writes, caches and publishes the configuration without the
   rule, which is what a reload would give; a list that is too long changes nothing.
   */
  lemma {:induction false} RemoveExact(defaults: seq<Rule>, s: Service, target: Rule)
    requires s.holder.Free? && LoadWritable(s.file).Some?
    ensures exists at, next ::
              && InOrder(LoadWritable(s.file).value, {target}, at, next)
              && var t := Run(defaults, s, [BeginRemove(target), WriteConfig(true), SetCache, Publish]);
                 if |next| > MAX_COUNT then t == s
                 else
                   && t.holder.Free? && t.file == FileOf(next)
                   && t.slot == Filled(Compute(defaults, FileOf(next)))
                   && t.feed == s.feed + [Compute(defaults, FileOf(next))]
  {
    var custom := LoadWritable(s.file).value;
    var next := RemoveConfig(custom, target);
    RemoveInOrder(custom, target);
    RemoveCompiles(s.file, target);
    WrittenAgrees(defaults, next);
    BeginRemoveLoads(defaults, s, target);
    hide Run, Step, RemoveConfig, RuntimeState, Compute, FileOf, LoadWritable, AllCompile, InOrder;
    if |next| <= MAX_COUNT {
      WriteCycle(defaults, s, BeginRemove(target), next);
    } else {
      FourSteps(defaults, s, BeginRemove(target), WriteConfig(true), SetCache, Publish);
      RefusedCycle(defaults, s, next);
    }
  }

  lemma {:induction false} RefusedCycle(defaults: seq<Rule>, s: Service, next: seq<Rule>)
    requires s.holder.Free? && |next| > MAX_COUNT
    ensures Step(defaults, Step(defaults, Step(defaults, s.(holder := Loaded(next)), WriteConfig(true)), SetCache),
                 Publish) == s
  {
    hide FileOf, RuntimeState, Compute;
    assert Step(defaults, s.(holder := Loaded(next)), WriteConfig(true)) == s;
  }

  /** On a malformed file neither an upsert nor a remove does anything. */
  lemma {:induction false} MalformedStays(defaults: seq<Rule>, s: Service, begin: Event)
    requires s.holder.Free? && s.file.Malformed? && (begin.BeginUpsert? || begin.BeginRemove?)
    ensures Run(defaults, s, [begin, WriteConfig(true), SetCache, Publish]) == s
  {
    hide Run, UpsertConfig, RemoveConfig, FileOf, RuntimeState, Compute;
    assert Step(defaults, s, begin) == s;
    FourSteps(defaults, s, begin, WriteConfig(true), SetCache, Publish);
  }

  // ----- Startup -----

  /** Wanted at startup: no custom rule has the command, and none has the shortcut under the same condition. */
  function IsMissing(custom: seq<Rule>): Rule -> bool {
    (r: Rule) => forall i :: 0 <= i < |custom| ==> custom[i].command != r.command && !SameContext(custom[i], r)
  }

  lemma {:induction false} MissingPicks(defaults: seq<Rule>, custom: seq<Rule>)
    ensures Picks(defaults, IsMissing(custom), MissingDefaults(defaults, custom))
  {
    if defaults == [] {
      PicksNone(IsMissing(custom));
    } else {
      hide Picks, SameContext;
      MissingPicks(defaults[1..], custom);
      PicksCons(defaults, IsMissing(custom), MissingDefaults(defaults[1..], custom));
      assert IsMissing(custom)(defaults[0]) <==>
             !HasCommand(custom, defaults[0].command) && !Clashes(custom, defaults[0]);
    }
  }

  /** The rules with as many of the missing ones behind them as fit. */
  predicate IsBackfilled(custom: seq<Rule>, missing: seq<Rule>, next: seq<Rule>) {
    && custom <= next && next <= custom + missing
    && |next| == if |custom| + |missing| <= 256 then |custom| + |missing| else if |custom| <= 256 then 256 else |custom|
  }

  /** The plan is to append the missing defaults that fit, if any. */
  ghost predicate PlansBackfill(defaults: seq<Rule>, custom: seq<Rule>, plan: Option<seq<Rule>>) {
    exists missing, next ::
      && Picks(defaults, IsMissing(custom), missing) && IsBackfilled(custom, missing, next)
      && plan == if next == custom then None else Some(next)
  }

  predicate AllValid(entries: seq<Entry>) {
    forall i :: 0 <= i < |entries| ==> ValidEntry(entries[i])
  }

  /**
   What startup writes: all defaults if there is no file; nothing over a malformed file
   or one with an invalid entry; else the rules with the missing defaults that fit, if any.
   */
  lemma {:induction false} SyncPlanMeaning(defaults: seq<Rule>, file: File)
    ensures match file
            case Missing => SyncPlan(defaults, file) == Some(defaults)
            case Malformed => SyncPlan(defaults, file) == None
            case Entries(entries) =>
              if AllValid(entries) then PlansBackfill(defaults, ValidRules(entries), SyncPlan(defaults, file))
              else SyncPlan(defaults, file) == None
  {
    hide PlansBackfill, AllValid;
    if file.Entries? {
      NoIssues(file.entries);
      hide ValidRules, EntryIssues, BackfillConfig;
      BackfillExact(defaults, ValidRules(file.entries));
    }
  }

  lemma {:induction false} BackfillExact(defaults: seq<Rule>, custom: seq<Rule>)
    ensures PlansBackfill(defaults, custom, BackfillConfig(defaults, custom))
  {
    hide Picks, MissingDefaults;
    MissingPicks(defaults, custom);
    var missing := MissingDefaults(defaults, custom);
    var slots := if |custom| >= MAX_COUNT then 0 else MAX_COUNT - |custom|;
    var appended := if |missing| <= slots then missing else missing[..slots];
    var next := custom + appended;
    assert Picks(defaults, IsMissing(custom), missing) && IsBackfilled(custom, missing, next);
    assert next == custom <==> appended == [];
  }

  lemma {:induction false} NoIssues(entries: seq<Entry>)
    ensures EntryIssues(entries, 0) == [] <==> AllValid(entries)
  {
    hide ValidEntry, EntryIssues;
    ReadsIssues(entries, |entries|);
    assert entries[..|entries|] == entries;
    var bad := Positions(entries, |entries|, Bad);
    if i :| 0 <= i < |entries| && !ValidEntry(entries[i]) {
      assert Bad(entries[i]) && i in bad;
    }
    if bad != [] {
      assert Bad(entries[bad[0]]);
    }
  }

  /** An uninterrupted startup sync writes what it planned and leaves the slot empty. */
  lemma {:induction false} SyncExact(defaults: seq<Rule>, s: Service)
    requires s.holder.Free?
    ensures var t := Run(defaults, s, [BeginSync, SyncWrite(true), SyncInvalidate]);
            var plan := SyncPlan(defaults, s.file);
            && t.holder.Free? && t.feed == s.feed
            && if plan.Some? && |plan.value| > MAX_COUNT then t == s
               else t.slot == Vacant && t.file == if plan.Some? then FileOf(plan.value) else s.file
  {
    hide Run, SyncPlan, FileOf;
    ThreeSteps(defaults, s, BeginSync, SyncWrite(true), SyncInvalidate);
  }
}
