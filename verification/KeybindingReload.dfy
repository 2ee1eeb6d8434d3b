/**
 What the watcher's revalidation does on every run: it publishes the state of the file
 as it was at some moment since it began, and it ends every earlier disagreement
 between cache and file.
 */
module KeybindingReload {
  import opened KeybindingRules
  import opened KeybindingProtocol
  import opened KeybindingCache

  /** However wrong the slot was, after an invalidation the cache agrees again on runs that keep to the rules. */
  lemma {:induction false} RevalidationHeals(defaults: seq<Rule>, s: Service, events: seq<Event>)
    requires Inv(defaults, s) && s.holder.Free?
    requires NoEdits(events) && NoInterrupts(events) && UpsertsCompile(events)
    ensures var t := Run(defaults, Step(defaults, s, BeginRevalidate), events);
            t.holder.Free? && t.slot.Filled? ==> t.slot.state == Compute(defaults, t.file)
  {
    hide Step, Run, Inv, Compiled, NoEdits, NoInterrupts, UpsertsCompile;
    var s1 := Step(defaults, s, BeginRevalidate);
    StepKeepsInv(defaults, s, BeginRevalidate);
    RevalidationClears(defaults, s);
    RunKeepsInv(defaults, s1, events);
    RunKeepsCompiled(defaults, s1, events);
    CleanAgrees(defaults, Run(defaults, s1, events));
  }

  lemma {:induction false} RevalidationClears(defaults: seq<Rule>, s: Service)
    requires s.holder.Free?
    ensures var t := Step(defaults, s, BeginRevalidate);
            Compiled(t) && !t.edited && !t.behind
  {
    hide Compute, AllCompile;
  }

  lemma {:induction false} CleanAgrees(defaults: seq<Rule>, s: Service)
    requires Inv(defaults, s) && Compiled(s) && !s.edited && !s.behind
    ensures s.holder.Free? && s.slot.Filled? ==> s.slot.state == Compute(defaults, s.file)
  {
    hide Compute, AllCompile, FileOf;
  }

  // ----- What a revalidation publishes -----

  /** No event frees the permit. */
  predicate StillHeld(defaults: seq<Rule>, s: Service, events: seq<Event>)
    decreases |events|
  {
    events == [] ||
    (!Step(defaults, s, events[0]).holder.Free? && StillHeld(defaults, Step(defaults, s, events[0]), events[1..]))
  }

  /** The contents the file has during a run. */
  function FilesDuring(defaults: seq<Rule>, s: Service, events: seq<Event>): set<File>
    decreases |events|
  {
    {s.file} + if events == [] then {} else FilesDuring(defaults, Step(defaults, s, events[0]), events[1..])
  }

  ghost predicate StateOf(defaults: seq<Rule>, files: set<File>, state: ConfigState) {
    exists file :: file in files && state == Compute(defaults, file)
  }

  ghost predicate LookupKnown(defaults: seq<Rule>, files: set<File>, lookup: Lookup) {
    lookup.Started? || StateOf(defaults, files, lookup.state)
  }

  /** Every lookup since token `first`, and the slot, hold states of these files. */
  ghost predicate Reloading(defaults: seq<Rule>, s: Service, first: nat, files: set<File>) {
    && s.file in files && first <= s.nextToken
    && (s.holder.Invalidated? || (s.holder.Awaiting? && s.holder.token >= first))
    && (forall t :: t in s.lookups && t >= first ==> LookupKnown(defaults, files, s.lookups[t]))
    && (s.slot.Loading? ==> s.slot.token >= first)
    && (s.slot.Filled? ==> StateOf(defaults, files, s.slot.state))
  }

  lemma {:induction false} MoreFiles(defaults: seq<Rule>, s: Service, first: nat, files: set<File>, more: set<File>)
    requires Reloading(defaults, s, first, files) && files <= more
    ensures Reloading(defaults, s, first, more)
  {
    hide Compute;
  }

  lemma {:induction false} HeldStep(defaults: seq<Rule>, s: Service, e: Event, first: nat, files: set<File>)
    requires Reloading(defaults, s, first, files)
    ensures var t := Step(defaults, s, e);
            !t.holder.Free? ==> t.feed == s.feed && Reloading(defaults, t, first, files + {t.file})
  {
    hide Compute, RuntimeState, UpsertConfig, RemoveConfig, SyncPlan, LoadWritable, FileOf, AllCompile;
    var t := Step(defaults, s, e);
    MoreFiles(defaults, s, first, files, files + {t.file});
    if e.BeginLookup? || e.LookupRead? || e.LookupDone? {
      HeldLookup(defaults, s, e, first, files);
    } else {
      OthersWait(defaults, s, e);
      hide StepLookup, StepWriter, LoadFor;
    }
  }

  predicate OfOtherOperation(e: Event) {
    || e.BeginUpsert? || e.BeginRemove? || e.WriteConfig? || e.SetCache? || e.Publish?
    || e.BeginSync? || e.SyncWrite? || e.SyncInvalidate?
  }

  /** Whatever belongs to another operation that takes the permit does nothing. */
  lemma {:induction false} OthersWait(defaults: seq<Rule>, s: Service, e: Event)
    requires s.holder.Invalidated? || s.holder.Awaiting?
    ensures OfOtherOperation(e) ==> Step(defaults, s, e) == s
  {
    hide Compute, RuntimeState, UpsertConfig, RemoveConfig, SyncPlan, LoadWritable, FileOf, AllCompile, StepLookup;
  }

  lemma {:induction false} HeldLookup(defaults: seq<Rule>, s: Service, e: Event, first: nat, files: set<File>)
    requires Reloading(defaults, s, first, files) && (e.BeginLookup? || e.LookupRead? || e.LookupDone?)
    ensures var t := StepLookup(defaults, s, e);
            t.feed == s.feed && t.file == s.file && Reloading(defaults, t, first, files)
  {
    hide Compute;
    if e.LookupRead? {
      assert StateOf(defaults, files, Compute(defaults, s.file));
    }
    hide StateOf;
  }

  lemma {:induction false} FileKnown(defaults: seq<Rule>, s: Service, first: nat, files: set<File>)
    requires Reloading(defaults, s, first, files)
    ensures s.file in files
  {
    hide Compute;
  }

  lemma {:induction false} HeldRun(
      defaults: seq<Rule>, s: Service, events: seq<Event>, first: nat, files: set<File>)
    requires Reloading(defaults, s, first, files) && StillHeld(defaults, s, events)
    ensures var t := Run(defaults, s, events);
            t.feed == s.feed && Reloading(defaults, t, first, files + FilesDuring(defaults, s, events))
    decreases |events|
  {
    hide Step, Reloading;
    FileKnown(defaults, s, first, files);
    if events == [] {
      assert files + FilesDuring(defaults, s, events) == files;
    } else {
      var s1 := Step(defaults, s, events[0]);
      HeldStep(defaults, s, events[0], first, files);
      HeldRun(defaults, s1, events[1..], first, files + {s1.file});
      assert files + {s1.file} + FilesDuring(defaults, s1, events[1..]) == files + FilesDuring(defaults, s, events);
    }
  }

  lemma {:induction false} LastStep(defaults: seq<Rule>, s: Service, e: Event, first: nat, files: set<File>)
    requires Reloading(defaults, s, first, files) && !e.Interrupt?
    ensures var t := Step(defaults, s, e);
            t.holder.Free? ==>
              exists state :: StateOf(defaults, files, state) && t == s.(feed := s.feed + [state], holder := Free)
  {
    hide Compute, RuntimeState, UpsertConfig, RemoveConfig, SyncPlan, LoadWritable, FileOf, AllCompile, StateOf;
    if e.RevalidateGet? && s.holder.Invalidated? && s.slot.Filled? {
      assert StateOf(defaults, files, s.slot.state);
    } else if e.RevalidateEmit? && s.holder.Awaiting? && s.holder.token in s.lookups {
      assert LookupKnown(defaults, files, s.lookups[s.holder.token]);
    }
  }

  lemma {:induction false} RevalidationBegins(defaults: seq<Rule>, s: Service)
    requires TokensKnown(s) && s.holder.Free?
    ensures var t := Step(defaults, s, BeginRevalidate);
            Reloading(defaults, t, s.nextToken, {s.file}) && t.file == s.file && t.feed == s.feed
  {
    hide Compute;
  }

  /**
   A revalidation that completes, whatever happens in between, publishes exactly one
   state: that of the file at some moment since the revalidation began.
   */
  lemma {:induction false} RevalidationPublishes(defaults: seq<Rule>, s: Service, events: seq<Event>, last: Event)
    requires TokensKnown(s) && s.holder.Free?
    requires StillHeld(defaults, Step(defaults, s, BeginRevalidate), events) && !last.Interrupt?
    ensures var s1 := Step(defaults, s, BeginRevalidate);
            var t := Step(defaults, Run(defaults, s1, events), last);
            t.holder.Free? ==> exists file :: file in FilesDuring(defaults, s1, events) &&
                                              t.feed == s.feed + [Compute(defaults, file)]
  {
    hide Step, Run, Compute, Reloading, StillHeld, TokensKnown;
    var s1 := Step(defaults, s, BeginRevalidate);
    var files := FilesDuring(defaults, s1, events);
    RevalidationBegins(defaults, s);
    HeldRun(defaults, s1, events, s.nextToken, {s.file});
    assert {s.file} + files == files;
    LastStep(defaults, Run(defaults, s1, events), last, s.nextToken, files);
  }

  lemma {:induction false} HeldFileStays(defaults: seq<Rule>, s: Service, events: seq<Event>)
    requires (s.holder.Invalidated? || s.holder.Awaiting?) && StillHeld(defaults, s, events) && NoEdits(events)
    ensures FilesDuring(defaults, s, events) == {s.file}
    decreases |events|
  {
    if events != [] {
      HeldStays(defaults, s, events[0]);
      hide Step;
      HeldFileStays(defaults, Step(defaults, s, events[0]), events[1..]);
    }
  }

  lemma {:induction false} HeldStays(defaults: seq<Rule>, s: Service, e: Event)
    requires (s.holder.Invalidated? || s.holder.Awaiting?) && !e.Edit?
    ensures var t := Step(defaults, s, e);
            t.file == s.file && (t.holder.Free? || t.holder.Invalidated? || t.holder.Awaiting?)
  {
    hide Compute, RuntimeState, UpsertConfig, RemoveConfig, SyncPlan, LoadWritable, FileOf, AllCompile;
    OthersWait(defaults, s, e);
    hide StepWriter, LoadFor;
  }

  /** Without an edit in between, what a revalidation publishes is the state of the file it began with and leaves. */
  lemma {:induction false} RevalidationExact(defaults: seq<Rule>, s: Service, events: seq<Event>, last: Event)
    requires TokensKnown(s) && s.holder.Free? && NoEdits(events) && !last.Edit? && !last.Interrupt?
    requires StillHeld(defaults, Step(defaults, s, BeginRevalidate), events)
    ensures var t := Step(defaults, Run(defaults, Step(defaults, s, BeginRevalidate), events), last);
            t.holder.Free? ==> t.file == s.file && t.feed == s.feed + [Compute(defaults, s.file)]
  {
    var s1 := Step(defaults, s, BeginRevalidate);
    assert s1.holder.Invalidated? && s1.file == s.file;
    hide Step, Compute, StillHeld, TokensKnown, NoEdits;
    RevalidationPublishes(defaults, s, events, last);
    HeldFileStays(defaults, s1, events);
    HeldFileEnds(defaults, s1, events, last);
    hide Run;
  }

  lemma {:induction false} HeldFileEnds(defaults: seq<Rule>, s: Service, events: seq<Event>, last: Event)
    requires (s.holder.Invalidated? || s.holder.Awaiting?) && StillHeld(defaults, s, events)
    requires NoEdits(events) && !last.Edit?
    ensures Step(defaults, Run(defaults, s, events), last).file == s.file
    decreases |events|
  {
    if events == [] {
      HeldStays(defaults, s, last);
    } else {
      HeldStays(defaults, s, events[0]);
      hide Step;
      HeldFileEnds(defaults, Step(defaults, s, events[0]), events[1..], last);
    }
  }
}
