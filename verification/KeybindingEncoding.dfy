/**
 Writing a resolved binding back as a rule: the encode branch of
 `ResolvedKeybindingFromConfig` in `ch3/apps/server/src/keybindings.ts`, with the
 length checks of the rule's schema in `ch3/packages/contracts/src/keybindings.ts`.
 */
module KeybindingEncoding {
  import opened Outcomes
  import opened Text
  import opened KeybindingRules
  import G = WhenRoundTrip
  import R = ShortcutRoundTrip

  /** `MAX_KEYBINDING_VALUE_LENGTH`. */
  const MAX_KEY_LENGTH: nat := 64

  predicate KeyFits(key: string) {
    1 <= |key| <= MAX_KEY_LENGTH
  }

  predicate ConditionFits(condition: Option<string>) {
    condition.Some? ==> 1 <= |condition.value| <= W.MAX_LENGTH
  }

  function TrimmedCondition(rule: Rule): Option<string> {
    if rule.condition.Some? then Some(Trim(rule.condition.value)) else None
  }

  /** A rule as the schema decodes it: trimmed and within the length limits. */
  function DecodeRule(raw: Rule): Option<Rule> {
    var rule := Rule(Trim(raw.key), raw.command, TrimmedCondition(raw));
    if KeyFits(rule.key) && ConditionFits(rule.condition) then Some(rule) else None
  }

  function Decode(raw: Rule): Option<Resolved> {
    match DecodeRule(raw)
    case None => None
    case Some(rule) => Compile(rule)
  }

  /** The schema checks the rule before it trims and writes its texts. */
  function EncodeRule(rule: Rule): Option<Rule> {
    if KeyFits(rule.key) && ConditionFits(rule.condition)
    then Some(Rule(Trim(rule.key), rule.command, TrimmedCondition(rule)))
    else None
  }

  function EncodedCondition(binding: Resolved): Option<string> {
    if binding.whenAst.Some? then Some(W.Encode(binding.whenAst.value)) else None
  }

  function Encode(binding: Resolved): Option<Rule> {
    match S.Encode(binding.shortcut)
    case None => None
    case Some(key) =>
      if key == "" then None
      else EncodeRule(Rule(key, binding.command, EncodedCondition(binding)))
  }

  // ----- Encodings need no trimming -----

  lemma {:induction false} JoinTrimmed(parts: seq<string>)
    requires parts != [] && forall i :: 0 <= i < |parts| ==> parts[i] != [] && Trimmed(parts[i])
    ensures var t := Join(parts, "+"); t != [] && t[0] == parts[0][0] && Trimmed(t)
  {
    hide IsSpace;
    if |parts| > 1 {
      JoinTrimmed(parts[1..]);
      var rest := Join(parts[1..], "+");
      assert Join(parts, "+")[|Join(parts, "+")| - 1] == rest[|rest| - 1];
    }
  }

  lemma {:induction false} KeyEncodingTrimmed(s: S.Shortcut)
    requires R.CanonicalKey(s.key)
    ensures S.Encode(s).Some? && S.Encode(s).value != "" && Trimmed(S.Encode(s).value)
  {
    hide R.CanonicalKey, S.Modifiers, S.KeyText, Trim, Join;
    R.EncodingIsLower(s);
    R.ModifiersArePlain(s);
    R.KeyTextFacts(s.key);
    TrimFacts(S.KeyText(s.key));
    TrimFacts("+");
    PlusTrimmed();
    var parts := S.Modifiers(s) + [S.KeyText(s.key)];
    forall i | 0 <= i < |parts|
      ensures parts[i] != [] && Trimmed(parts[i])
    {
      TrimFacts(parts[i]);
    }
    JoinTrimmed(parts);
  }

  lemma {:induction false} PlusTrimmed()
    ensures Trimmed("+")
    ensures S.KeyText("+") == "+"
  {
  }

  lemma {:induction false} NameCharIsNoSpace(c: char)
    requires W.IsNameChar(c)
    ensures !IsSpace(c)
  {
  }

  lemma {:induction false} ConditionEncodingTrimmed(n: W.Node)
    requires W.ValidNames(n)
    ensures W.Encode(n) != "" && Trimmed(W.Encode(n))
  {
    hide IsSpace, W.IsNameChar;
    var t := W.Encode(n);
    assert !IsSpace('!') && !IsSpace('(') && !IsSpace(')') by {
      PunctuationIsNoSpace();
    }
    match n
    case Identifier(name) =>
      NameCharIsNoSpace(name[0]);
      NameCharIsNoSpace(name[|name| - 1]);
    case Not(x) =>
      assert t[0] == '!' && t[|t| - 1] == ')';
    case And(l, r) =>
      assert t[0] == '(' && t[|t| - 1] == ')';
    case Or(l, r) =>
      assert t[0] == '(' && t[|t| - 1] == ')';
  }

  lemma {:induction false} PunctuationIsNoSpace()
    ensures !IsSpace('!') && !IsSpace('(') && !IsSpace(')')
  {
  }

  // ----- Which bindings survive -----

  /** The rule that writes a binding back is short enough. */
  predicate ShortEnough(b: Resolved) {
    && (S.Encode(b.shortcut).Some? ==> |S.Encode(b.shortcut).value| <= 64)
    && (b.whenAst.Some? ==> |W.Encode(b.whenAst.value)| <= 256)
  }

  predicate ShallowEnough(b: Resolved) {
    b.whenAst.Some? ==> G.Nesting(b.whenAst.value) <= 64
  }

  lemma {:induction false} CompiledFacts(rule: Rule)
    requires Compile(rule).Some?
    ensures var b := Compile(rule).value;
            && R.CanonicalKey(b.shortcut.key) && S.Encode(b.shortcut).Some?
            && S.Parse(S.Encode(b.shortcut).value) == Some(b.shortcut)
            && S.Encode(b.shortcut).value != "" && Trimmed(S.Encode(b.shortcut).value)
            && (b.whenAst.Some? ==>
                  W.ValidNames(b.whenAst.value) && W.Encode(b.whenAst.value) != "" &&
                      Trimmed(W.Encode(b.whenAst.value)))
  {
    hide S.Parse, W.Parse, R.CanonicalKey, Trimmed, S.Encode, W.Encode, W.ValidNames;
    var b := Compile(rule).value;
    R.ParsedIsCanonical(rule.key);
    R.NormalForm(rule.key);
    KeyEncodingTrimmed(b.shortcut);
    if b.whenAst.Some? {
      ConditionEncodingTrimmed(b.whenAst.value);
    }
  }

  /** A binding can be written back exactly when its two texts fit; the texts are then its encodings. */
  lemma {:induction false} Encoded(rule: Rule)
    requires Compile(rule).Some?
    ensures var b := Compile(rule).value;
            && (Encode(b).Some? <==> ShortEnough(b))
            && (Encode(b).Some? ==>
                  Encode(b).value == Rule(S.Encode(b.shortcut).value, b.command, EncodedCondition(b)))
  {
    hide Compile, S.Encode, W.Encode, Trim, Trimmed, R.CanonicalKey, W.ValidNames;
    CompiledFacts(rule);
    var b := Compile(rule).value;
    TrimFacts(S.Encode(b.shortcut).value);
    if b.whenAst.Some? {
      TrimFacts(W.Encode(b.whenAst.value));
    }
  }

  /**
   A rule that compiles can be written back and read again as the same binding exactly
   when nothing is too long or too deep.
   */
  lemma {:induction false} WrittenBack(rule: Rule)
    requires Compile(rule).Some?
    ensures var b := Compile(rule).value;
            (Encode(b).Some? && Decode(Encode(b).value) == Some(b)) <==> ShortEnough(b) && ShallowEnough(b)
  {
    hide S.Parse, S.Encode, W.Parse, W.Encode, Trim, Trimmed, R.CanonicalKey, W.ValidNames, G.Nesting, Encode;
    CompiledFacts(rule);
    Encoded(rule);
    var b := Compile(rule).value;
    TrimFacts(S.Encode(b.shortcut).value);
    if b.whenAst.Some? {
      TrimFacts(W.Encode(b.whenAst.value));
      G.ParseEncoding(b.whenAst.value);
    }
  }

  // ----- A key that grows -----

  function LongKey(): string {
    "cmd+" + Letters(60)
  }

  function Letters(count: nat): (s: string)
    ensures |s| == count && forall i :: 0 <= i < count ==> s[i] == 'a'
  {
    seq(count, _ => 'a')
  }

  lemma {:induction false} LongKeyTokens()
    ensures S.KeyTokens(LongKey()) == ["cmd", Letters(60)]
  {
    hide Trim, Split, Lower;
    var key := Letters(60);
    R.PlainWord("cmd");
    R.PlainWord(key);
    R.LowerAppend("cmd", "+");
    R.LowerAppend("cmd+", key);
    LowerPlus();
    assert "cmd" + "+" == "cmd+";
    SplitAtSeparator("cmd", key, '+');
    SplitNoSeparator(key, '+');
    assert "cmd" + ['+'] + key == LongKey();
    var tokens := ["cmd", key];
    assert ["cmd"] + [key] == tokens;
    assert S.TrimAll(tokens) == tokens;
  }

  lemma {:induction false} LongKeyParses()
    ensures S.Parse(LongKey()) == Some(S.Shortcut(Letters(60), true, false, false, false, false))
  {
    hide S.KeyTokens;
    LongKeyTokens();
    var tokens := ["cmd", Letters(60)];
    assert tokens[1..] == [Letters(60)] && [Letters(60)][1..] == [];
    assert |Letters(60)| == 60;
  }

  lemma {:induction false} LowerPlus()
    ensures Lower("+") == "+"
  {
  }

  /** A key value of 64 characters is accepted, but its binding cannot be written back. */
  lemma {:induction false} LongKeyRefused(command: string)
    ensures var rule := Rule(LongKey(), command, None);
            KeyFits(rule.key) && Compile(rule).Some? && Encode(Compile(rule).value) == None
  {
    LongKeyParses();
    hide S.Parse;
    var key := Letters(60);
    var s := S.Shortcut(key, true, false, false, false, false);
    assert S.Modifiers(s) == ["meta"];
    assert key != " " && '+' !in key;
    assert S.KeyText(key) == key && key != "+";
    assert S.Modifiers(s) + [key] == ["meta", key] && ["meta", key][1..] == [key];
    assert Join(["meta", key], "+") == "meta" + "+" + key;
  }
}
