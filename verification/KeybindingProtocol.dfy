/**
 The keybindings service of `ch3/apps/server/src/keybindings.ts` as interleaved
 steps. Upsert, remove, startup sync and revalidation hold the one permit while
 they run; cache lookups, the invalidation in `start` and edits by other programs
 happen at any time in between, and the fiber that holds the permit can be
 interrupted at any time.
 */
module KeybindingProtocol {
  import opened Outcomes
  import opened KeybindingRules

  // ----- The file and what is read from it -----

  /** An element of the JSON array: a rule, or something that does not decode as one. */
  datatype Entry = Junk | RuleEntry(rule: Rule)

  datatype File = Missing | Malformed | Entries(entries: seq<Entry>)

  datatype Issue = MalformedConfig | InvalidEntry(index: nat)

  datatype ConfigState = ConfigState(keybindings: seq<Resolved>, issues: seq<Issue>)

  predicate ValidEntry(e: Entry)
    ensures ValidEntry(e) ==> e.RuleEntry?
  {
    e.RuleEntry? && Compile(e.rule).Some?
  }

  function ValidRules(entries: seq<Entry>): seq<Rule> {
    if entries == [] then []
    else (if ValidEntry(entries[0]) then [entries[0].rule] else []) + ValidRules(entries[1..])
  }

  /** The issues of entries that start at position `index` of the file. */
  function EntryIssues(entries: seq<Entry>, index: nat): seq<Issue>
    decreases |entries|
  {
    if entries == [] then []
    else (if ValidEntry(entries[0]) then [] else [InvalidEntry(index)]) + EntryIssues(entries[1..], index + 1)
  }

  /** `loadWritableCustomKeybindingsConfig`; it fails on a malformed file. */
  function LoadWritable(file: File): Option<seq<Rule>> {
    match file
    case Missing => Some([])
    case Malformed => None
    case Entries(entries) => Some(ValidRules(entries))
  }

  /** `loadRuntimeCustomKeybindingsConfig`; it reports instead of failing. */
  function LoadRuntime(file: File): (seq<Rule>, seq<Issue>) {
    match file
    case Missing => ([], [])
    case Malformed => ([], [MalformedConfig])
    case Entries(entries) => (ValidRules(entries), EntryIssues(entries, 0))
  }

  function RuntimeState(defaults: seq<Rule>, rules: seq<Rule>, issues: seq<Issue>): ConfigState {
    ConfigState(MergeWithDefaults(defaults, CompileAll(rules)), issues)
  }

  /** `loadConfigStateFromDisk`. */
  function Compute(defaults: seq<Rule>, file: File): ConfigState {
    var (rules, issues) := LoadRuntime(file);
    RuntimeState(defaults, rules, issues)
  }

  function EntriesOf(rules: seq<Rule>): seq<Entry> {
    if rules == [] then [] else [RuleEntry(rules[0])] + EntriesOf(rules[1..])
  }

  /** The file after writing rules: reading it gives them back. */
  function FileOf(rules: seq<Rule>): File {
    Entries(EntriesOf(rules))
  }

  /** What startup decides to write. */
  function SyncPlan(defaults: seq<Rule>, file: File): Option<seq<Rule>> {
    if file.Missing? then Some(defaults)
    else
      var (rules, issues) := LoadRuntime(file);
      if issues != [] then None else BackfillConfig(defaults, rules)
  }

  // ----- State -----

  /** The cache's one slot. A lookup fills it only if it is still the one loading it. */
  datatype Slot = Vacant | Loading(token: nat) | Filled(state: ConfigState)

  datatype Lookup = Started | Read(state: ConfigState) | Done(state: ConfigState)

  /** What the holder of the permit has done. */
  datatype Holder =
    | Free
    | Loaded(next: seq<Rule>)
    | Written(next: seq<Rule>)
    | CacheSet(state: ConfigState)
    | SyncPlanned(write: Option<seq<Rule>>)
    | SyncWritten(changed: bool)
    | Invalidated
    | Awaiting(token: nat)

  /**
   `edited`: another program changed the file since the last write, or the last
   invalidation outside the window between a write and its cache update.
   `uncompiled`: the slot was set from a configuration with a rule that does not compile.
   `behind`: an operation was interrupted after it had written the file and before it
   updated or cleared a slot that was not vacant, and no one has done so since.
   */
  datatype Service = Service(
    file: File,
    slot: Slot,
    lookups: map<nat, Lookup>,
    nextToken: nat,
    feed: seq<ConfigState>,
    holder: Holder,
    edited: bool,
    uncompiled: bool,
    behind: bool)

  function Start(file: File): Service {
    Service(file, Vacant, map[], 0, [], Free, false, false, false)
  }

  datatype Event =
    | BeginUpsert(rule: Rule, replaced: Option<Rule>)
    | BeginRemove(target: Rule)
    | WriteConfig(ok: bool)
    | SetCache
    | Publish
    | BeginSync
    | SyncWrite(ok: bool)
    | SyncInvalidate
    | BeginRevalidate
    | RevalidateGet
    | RevalidateEmit
    | BeginLookup
    | LookupRead(token: nat)
    | LookupDone(token: nat)
    | StartInvalidate
    | Interrupt
    | Edit(to: File)

  // ----- Steps -----

  /**
   Encoding the file checks the rule count; the write itself may fail too, and then the
   file is as before. A failure after the rename, while the temporary directory is
   removed, leaves the state of a write followed by an interruption.
   */
  predicate Writable(rules: seq<Rule>, ok: bool) {
    ok && |rules| <= MAX_COUNT
  }

  function LoadFor(s: Service, next: seq<Rule> -> seq<Rule>): Service {
    if !s.holder.Free? then s
    else match LoadWritable(s.file)
      case None => s
      case Some(custom) => s.(holder := Loaded(next(custom)))
  }

  function Invalidate(s: Service): Service {
    s.(slot := Vacant, uncompiled := false, behind := false, edited := s.edited && s.holder.Written?)
  }

  /** No write is waiting for its cache update. */
  predicate Quiet(h: Holder) {
    !h.Written? && !(h.SyncWritten? && h.changed)
  }

  /** `Cache.get` on a vacant slot starts a lookup. */
  function StartLookup(s: Service): Service {
    s.(slot := Loading(s.nextToken), lookups := s.lookups[s.nextToken := Started], nextToken := s.nextToken + 1)
  }

  function StepLookup(defaults: seq<Rule>, s: Service, e: Event): Service
    requires e.BeginLookup? || e.LookupRead? || e.LookupDone?
  {
    if e.BeginLookup? then (if s.slot.Vacant? then StartLookup(s) else s)
    else if e.token !in s.lookups then s
    else match s.lookups[e.token]
      case Started =>
        if e.LookupRead? then s.(lookups := s.lookups[e.token := Read(Compute(defaults, s.file))]) else s
      case Read(state) =>
        if e.LookupDone? then
          s.(lookups := s.lookups[e.token := Done(state)],
             slot := if s.slot == Loading(e.token) then Filled(state) else s.slot)
        else s
      case Done(_) => s
  }

  function StepWriter(defaults: seq<Rule>, s: Service, e: Event): Service
    requires e.WriteConfig? || e.SetCache? || e.Publish? || e.SyncWrite? || e.SyncInvalidate?
  {
    if e.WriteConfig? && s.holder.Loaded? then
      if Writable(s.holder.next, e.ok)
      then s.(file := FileOf(s.holder.next), edited := false, holder := Written(s.holder.next))
      else s.(holder := Free)
    else if e.SetCache? && s.holder.Written? then
      var state := RuntimeState(defaults, s.holder.next, []);
      s.(slot := Filled(state), uncompiled := !AllCompile(s.holder.next), behind := false, holder := CacheSet(state))
    else if e.Publish? && s.holder.CacheSet? then
      s.(feed := s.feed + [s.holder.state], holder := Free)
    else if e.SyncWrite? && s.holder.SyncPlanned? then
      if s.holder.write.None? then s.(holder := SyncWritten(false))
      else if Writable(s.holder.write.value, e.ok)
      then s.(file := FileOf(s.holder.write.value), edited := false, holder := SyncWritten(true))
      else s.(holder := Free)
    else if e.SyncInvalidate? && s.holder.SyncWritten? then
      Invalidate(s).(holder := Free)
    else s
  }

  function StepRevalidate(s: Service, e: Event): Service
    requires e.BeginRevalidate? || e.RevalidateGet? || e.RevalidateEmit?
  {
    if e.BeginRevalidate? && s.holder.Free? then Invalidate(s).(holder := Invalidated)
    else if e.RevalidateGet? && s.holder.Invalidated? then
      match s.slot
      case Vacant => StartLookup(s).(holder := Awaiting(s.nextToken))
      case Loading(token) => s.(holder := Awaiting(token))
      case Filled(state) => s.(feed := s.feed + [state], holder := Free)
    else if e.RevalidateEmit? && s.holder.Awaiting? && s.holder.token in s.lookups then
      match s.lookups[s.holder.token]
      case Done(state) => s.(feed := s.feed + [state], holder := Free)
      case _ => s
    else s
  }

  function Step(defaults: seq<Rule>, s: Service, e: Event): Service {
    match e
    case BeginUpsert(rule, replaced) => LoadFor(s, custom => UpsertConfig(custom, rule, replaced))
    case BeginRemove(target) => LoadFor(s, custom => RemoveConfig(custom, target))
    case BeginSync => if s.holder.Free? then s.(holder := SyncPlanned(SyncPlan(defaults, s.file))) else s
    case WriteConfig(_) => StepWriter(defaults, s, e)
    case SetCache => StepWriter(defaults, s, e)
    case Publish => StepWriter(defaults, s, e)
    case SyncWrite(_) => StepWriter(defaults, s, e)
    case SyncInvalidate => StepWriter(defaults, s, e)
    case BeginRevalidate => StepRevalidate(s, e)
    case RevalidateGet => StepRevalidate(s, e)
    case RevalidateEmit => StepRevalidate(s, e)
    case BeginLookup => StepLookup(defaults, s, e)
    case LookupRead(_) => StepLookup(defaults, s, e)
    case LookupDone(_) => StepLookup(defaults, s, e)
    case StartInvalidate => Invalidate(s)
    case Interrupt =>
      s.(holder := Free, behind := s.behind || (!Quiet(s.holder) && !s.slot.Vacant?))
    case Edit(to) => s.(file := to, edited := true)
  }

  function Run(defaults: seq<Rule>, s: Service, events: seq<Event>): Service
    decreases |events|
  {
    if events == [] then s else Run(defaults, Step(defaults, s, events[0]), events[1..])
  }
}
