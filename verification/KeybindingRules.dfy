/**
 The list operations of `ch3/apps/server/src/keybindings.ts` on rules: compiling,
 upserting, removing, merging with the defaults and backfilling them.
 */
module KeybindingRules {
  import opened Outcomes
  import W = WhenSyntax
  import S = ShortcutSyntax

  /** `MAX_KEYBINDINGS_COUNT`. */
  const MAX_COUNT: nat := 256

  datatype Rule = Rule(key: string, command: string, condition: Option<string>)

  datatype Resolved = Resolved(command: string, shortcut: S.Shortcut, whenAst: Option<W.Node>)

  /** `slice(-n)` of a list that is longer than `n`. */
  function LastOf<T>(s: seq<T>, n: nat): (r: seq<T>)
    ensures |r| == if |s| <= n then |s| else n
  {
    if |s| > n then s[|s| - n..] else s
  }

  // ----- Compiling -----

  /** `compileResolvedKeybindingRule`. */
  function Compile(rule: Rule): Option<Resolved> {
    match S.Parse(rule.key)
    case None => None
    case Some(shortcut) =>
      match rule.condition
      case None => Some(Resolved(rule.command, shortcut, None))
      case Some(text) =>
        match W.Parse(text)
        case None => None
        case Some(node) => Some(Resolved(rule.command, shortcut, Some(node)))
  }

  function CompileEach(rules: seq<Rule>): seq<Resolved> {
    if rules == [] then []
    else match Compile(rules[0])
      case None => CompileEach(rules[1..])
      case Some(resolved) => [resolved] + CompileEach(rules[1..])
  }

  /** `compileResolvedKeybindingsConfig`. */
  function CompileAll(rules: seq<Rule>): seq<Resolved> {
    LastOf(CompileEach(rules), MAX_COUNT)
  }

  predicate AllCompile(rules: seq<Rule>) {
    forall i :: 0 <= i < |rules| ==> Compile(rules[i]).Some?
  }

  // ----- Upserting and removing -----

  /** The rules that are none of `dropped`. */
  function Excluding(rules: seq<Rule>, dropped: set<Rule>): seq<Rule> {
    if rules == [] then []
    else (if rules[0] in dropped then [] else [rules[0]]) + Excluding(rules[1..], dropped)
  }

  function Dropped(rule: Rule, replaced: Option<Rule>): set<Rule> {
    {rule} + if replaced.Some? then {replaced.value} else {}
  }

  function UpsertConfig(custom: seq<Rule>, rule: Rule, replaced: Option<Rule>): seq<Rule> {
    LastOf(Excluding(custom, Dropped(rule, replaced)) + [rule], MAX_COUNT)
  }

  function RemoveConfig(custom: seq<Rule>, target: Rule): seq<Rule> {
    Excluding(custom, {target})
  }

  // ----- Merging with the defaults -----

  function CommandsOf(bindings: seq<Resolved>): set<string> {
    set i | 0 <= i < |bindings| :: bindings[i].command
  }

  function NotOverridden(defaults: seq<Resolved>, commands: set<string>): seq<Resolved> {
    if defaults == [] then []
    else (if defaults[0].command in commands then [] else [defaults[0]]) + NotOverridden(defaults[1..], commands)
  }

  /** `mergeWithDefaultKeybindings`. */
  function MergeWithDefaults(defaults: seq<Rule>, custom: seq<Resolved>): seq<Resolved> {
    if custom == [] then CompileAll(defaults)
    else LastOf(NotOverridden(CompileAll(defaults), CommandsOf(custom)) + custom, MAX_COUNT)
  }

  // ----- Backfilling -----

  const NUL: char := '\0'

  function ConditionText(rule: Rule): string {
    match rule.condition case None => "" case Some(text) => text
  }

  /** `keybindingShortcutContext`. */
  function ShortcutContext(rule: Rule): Option<string> {
    match S.Parse(rule.key)
    case None => None
    case Some(shortcut) =>
      match S.Encode(shortcut)
      case None => None
      case Some(encoded) => Some(encoded + [NUL] + ConditionText(rule))
  }

  /** `hasSameShortcutContext`. */
  predicate SameContext(left: Rule, right: Rule) {
    var l, r := ShortcutContext(left), ShortcutContext(right);
    l.Some? && r.Some? && l.value != "" && r.value != "" && l == r
  }

  predicate Clashes(custom: seq<Rule>, rule: Rule) {
    exists i :: 0 <= i < |custom| && SameContext(custom[i], rule)
  }

  predicate HasCommand(rules: seq<Rule>, command: string) {
    exists i :: 0 <= i < |rules| && rules[i].command == command
  }

  /** The defaults whose command has no rule and whose shortcut no rule uses. */
  function MissingDefaults(defaults: seq<Rule>, custom: seq<Rule>): seq<Rule> {
    if defaults == [] then []
    else
      (if HasCommand(custom, defaults[0].command) || Clashes(custom, defaults[0]) then [] else [defaults[0]]) +
      MissingDefaults(defaults[1..], custom)
  }

  /** What startup writes for a file with these rules, if anything. */
  function BackfillConfig(defaults: seq<Rule>, custom: seq<Rule>): Option<seq<Rule>> {
    var missing := MissingDefaults(defaults, custom);
    var slots := if |custom| >= MAX_COUNT then 0 else MAX_COUNT - |custom|;
    var appended := if |missing| <= slots then missing else missing[..slots];
    if appended == [] then None else Some(custom + appended)
  }
}
