/** Laws of the list operations. */
module KeybindingRuleLaws {
  import opened Outcomes
  import opened Text
  import opened KeybindingRules
  import R = ShortcutRoundTrip

  // ----- Excluding keeps everything else, in order -----

  /** The positions of the rules that stay. */
  function KeptAt(rules: seq<Rule>, dropped: set<Rule>): seq<nat> {
    if rules == [] then []
    else
      var front, last := rules[..|rules| - 1], rules[|rules| - 1];
      if last in dropped then KeptAt(front, dropped) else KeptAt(front, dropped) + [|rules| - 1]
  }

  /** `kept` lists, by ascending positions `at`, exactly the rules that are not dropped. */
  predicate InOrder(rules: seq<Rule>, dropped: set<Rule>, at: seq<nat>, kept: seq<Rule>) {
    && |at| == |kept|
    && (forall k :: 0 <= k < |at| ==> at[k] < |rules| && kept[k] == rules[at[k]] && kept[k] !in dropped)
    && (forall j, k :: 0 <= j < k < |at| ==> at[j] < at[k])
    && (forall i :: 0 <= i < |rules| && rules[i] !in dropped ==> i in at)
  }

  lemma {:induction false} ExcludingAppend(a: seq<Rule>, b: seq<Rule>, dropped: set<Rule>)
    ensures Excluding(a + b, dropped) == Excluding(a, dropped) + Excluding(b, dropped)
  {
    if a == [] {
      assert a + b == b;
    } else {
      assert (a + b)[1..] == a[1..] + b;
      ExcludingAppend(a[1..], b, dropped);
    }
  }

  lemma {:induction false} ExcludingOne(rule: Rule, dropped: set<Rule>)
    ensures Excluding([rule], dropped) == if rule in dropped then [] else [rule]
  {
    assert [rule][1..] == [];
  }

  /** The result lists, in ascending order of position, exactly the rules not dropped. */
  lemma {:induction false} ExcludingInOrder(rules: seq<Rule>, dropped: set<Rule>)
    ensures InOrder(rules, dropped, KeptAt(rules, dropped), Excluding(rules, dropped))
  {
    if rules != [] {
      hide Excluding, InOrder;
      var front, last := rules[..|rules| - 1], rules[|rules| - 1];
      assert rules == front + [last];
      ExcludingAppend(front, [last], dropped);
      ExcludingOne(last, dropped);
      ExcludingInOrder(front, dropped);
      InOrderAppend(front, last, dropped, KeptAt(front, dropped), Excluding(front, dropped));
      assert Excluding(front, dropped) + [] == Excluding(front, dropped);
    }
  }

  lemma {:induction false} InOrderAppend(front: seq<Rule>, last: Rule, dropped: set<Rule>, at: seq<nat>,
      kept: seq<Rule>)
    requires InOrder(front, dropped, at, kept)
    ensures if last in dropped then InOrder(front + [last], dropped, at, kept)
            else InOrder(front + [last], dropped, at + [|front|], kept + [last])
  {
    var rules := front + [last];
    assert forall k :: 0 <= k < |at| ==> rules[at[k]] == front[at[k]];
    if last !in dropped {
      assert (at + [|front|])[|at|] == |front|;
      forall i | 0 <= i < |rules| && rules[i] !in dropped
        ensures i in at + [|front|]
      {
        assert i < |front| ==> front[i] == rules[i];
      }
    } else {
      assert forall i :: 0 <= i < |front| ==> rules[i] == front[i];
    }
  }

  lemma {:induction false} ExcludingNothing(rules: seq<Rule>, dropped: set<Rule>)
    requires forall r :: r in rules ==> r !in dropped
    ensures Excluding(rules, dropped) == rules
  {
    if rules != [] {
      ExcludingNothing(rules[1..], dropped);
    }
  }

  // ----- Upsert -----

  /** A suffix that fits stays whole; what is in front of it loses its oldest part. */
  lemma {:induction false} LastOfAppend<T>(a: seq<T>, b: seq<T>, n: nat)
    requires |b| <= n
    ensures LastOf(a + b, n) == LastOf(a, n - |b|) + b
    ensures forall x :: x in LastOf(a, n - |b|) ==> x in a
  {
  }

  /**
   The upserted rule is last and nowhere else, the replaced rule is gone, and of
   the others only the oldest are missing, as many as exceed the cap.
   */
  lemma {:induction false} UpsertMeaning(custom: seq<Rule>, rule: Rule, replaced: Option<Rule>)
    ensures var others := Excluding(custom, Dropped(rule, replaced));
            var result := UpsertConfig(custom, rule, replaced);
            && result == LastOf(others, MAX_COUNT - 1) + [rule]
            && rule !in result[..|result| - 1]
            && (replaced.Some? && replaced.value != rule ==> replaced.value !in result)
            && |result| <= MAX_COUNT
  {
    var others := Excluding(custom, Dropped(rule, replaced));
    OthersNotDropped(custom, Dropped(rule, replaced));
    LastOfAppend(others, [rule], MAX_COUNT);
    hide Excluding, LastOf;
    var kept := LastOf(others, MAX_COUNT - 1);
    assert (kept + [rule])[..|kept|] == kept;
  }

  lemma {:induction false} OthersNotDropped(rules: seq<Rule>, dropped: set<Rule>)
    ensures forall r :: r in Excluding(rules, dropped) ==> r in rules && r !in dropped
  {
    if rules != [] {
      OthersNotDropped(rules[1..], dropped);
    }
  }

  lemma {:induction false} UpsertIdempotent(custom: seq<Rule>, rule: Rule, replaced: Option<Rule>)
    ensures var once := UpsertConfig(custom, rule, replaced);
            UpsertConfig(once, rule, replaced) == once
  {
    var dropped := Dropped(rule, replaced);
    var others := Excluding(custom, dropped);
    var kept := LastOf(others, MAX_COUNT - 1);
    UpsertMeaning(custom, rule, replaced);
    OthersNotDropped(custom, dropped);
    LastOfAppend(others, [rule], MAX_COUNT);
    ExcludingNothing(kept, dropped);
    ExcludingOne(rule, dropped);
    ExcludingAppend(kept, [rule], dropped);
    assert kept + [] == kept;
  }

  /** Removing what was just added gives the other rules back, when nothing was evicted. */
  lemma {:induction false} RemoveUndoesUpsert(custom: seq<Rule>, rule: Rule)
    requires rule !in custom
    ensures RemoveConfig(UpsertConfig(custom, rule, None), rule) == custom <==> |custom| < MAX_COUNT
  {
    var dropped := Dropped(rule, None);
    ExcludingNothing(custom, dropped);
    UpsertMeaning(custom, rule, None);
    var kept := LastOf(custom, MAX_COUNT - 1);
    LastOfAppend(custom, [rule], MAX_COUNT);
    ExcludingNothing(kept, {rule});
    ExcludingOne(rule, {rule});
    ExcludingAppend(kept, [rule], {rule});
    assert kept + [] == kept;
  }

  // ----- Compiling and merging -----

  lemma {:induction false} CompileEachAppend(a: seq<Rule>, b: seq<Rule>)
    ensures CompileEach(a + b) == CompileEach(a) + CompileEach(b)
  {
    if a == [] {
      assert a + b == b;
    } else {
      assert (a + b)[1..] == a[1..] + b;
      CompileEachAppend(a[1..], b);
    }
  }

  lemma {:induction false} CompileOne(rule: Rule)
    ensures CompileEach([rule]) == match Compile(rule) { case None => [] case Some(r) => [r] }
  {
    assert [rule][1..] == [];
  }

  lemma {:induction false} NotOverriddenFacts(defaults: seq<Resolved>, commands: set<string>)
    ensures var kept := NotOverridden(defaults, commands);
            && |kept| <= |defaults|
            && forall b :: b in kept <==> b in defaults && b.command !in commands
  {
    if defaults != [] {
      NotOverriddenFacts(defaults[1..], commands);
      assert defaults == [defaults[0]] + defaults[1..];
    }
  }

  /**
   At runtime every custom binding is kept, in order and last; in front stand
   only defaults whose command no custom binding has.
   */
  lemma {:induction false} MergeKeepsCustom(defaults: seq<Rule>, custom: seq<Resolved>)
    requires custom != [] && |custom| <= MAX_COUNT
    ensures var merged := MergeWithDefaults(defaults, custom);
            && |custom| <= |merged| <= MAX_COUNT
            && merged[|merged| - |custom|..] == custom
            && forall i :: 0 <= i < |merged| - |custom| ==>
                 merged[i] in CompileAll(defaults) && merged[i].command !in CommandsOf(custom)
  {
    var retained := NotOverridden(CompileAll(defaults), CommandsOf(custom));
    NotOverriddenFacts(CompileAll(defaults), CommandsOf(custom));
    LastOfAppend(retained, custom, MAX_COUNT);
    hide NotOverridden, CompileAll, CommandsOf, LastOf;
    var front := LastOf(retained, MAX_COUNT - |custom|);
    assert (front + custom)[|front|..] == custom;
    forall i | 0 <= i < |front|
      ensures (front + custom)[i] in CompileAll(defaults) && (front + custom)[i].command !in CommandsOf(custom)
    {
      assert front[i] in retained;
    }
  }

  /** Below the cap no default is lost either: exactly the overridden ones are missing. */
  lemma {:induction false} MergeKeepsDefaults(defaults: seq<Rule>, custom: seq<Resolved>, binding: Resolved)
    requires custom != [] && |CompileAll(defaults)| + |custom| <= MAX_COUNT
    ensures binding in MergeWithDefaults(defaults, custom) <==>
            binding in custom || (binding in CompileAll(defaults) && binding.command !in CommandsOf(custom))
  {
    NotOverriddenFacts(CompileAll(defaults), CommandsOf(custom));
  }

  /** An upserted rule that compiles becomes the last, and so the strongest, runtime binding. */
  lemma {:induction false} UpsertTakesEffect(defaults: seq<Rule>, custom: seq<Rule>, rule: Rule, replaced: Option<Rule>)
    requires Compile(rule).Some?
    ensures var runtime := MergeWithDefaults(defaults, CompileAll(UpsertConfig(custom, rule, replaced)));
            runtime != [] && runtime[|runtime| - 1] == Compile(rule).value
  {
    hide Compile, CompileEach, Excluding, Dropped, UpsertConfig, MergeWithDefaults, NotOverridden, CommandsOf;
    UpsertMeaning(custom, rule, replaced);
    var others := LastOf(Excluding(custom, Dropped(rule, replaced)), MAX_COUNT - 1);
    LastCompiled(others, rule);
    var bindings := CompileAll(UpsertConfig(custom, rule, replaced));
    hide LastOf, CompileAll;
    MergeKeepsCustom(defaults, bindings);
    var runtime := MergeWithDefaults(defaults, bindings);
    assert runtime[|runtime| - 1] == runtime[|runtime| - |bindings|..][|bindings| - 1];
  }

  lemma {:induction false} LastCompiled(others: seq<Rule>, rule: Rule)
    requires Compile(rule).Some?
    ensures var bindings := CompileAll(others + [rule]);
            bindings != [] && |bindings| <= MAX_COUNT && bindings[|bindings| - 1] == Compile(rule).value
  {
    hide Compile, CompileEach;
    CompileEachAppend(others, [rule]);
    CompileOne(rule);
  }

  // ----- Shortcut contexts -----

  lemma {:induction false} ContextOfParsed(rule: Rule)
    ensures ShortcutContext(rule).Some? <==> S.Parse(rule.key).Some?
    ensures S.Parse(rule.key).Some? ==>
              ShortcutContext(rule) == Some(S.Encode(S.Parse(rule.key).value).value + [NUL] + ConditionText(rule))
  {
    if S.Parse(rule.key).Some? {
      R.NormalForm(rule.key);
    }
  }

  /** Rules that mean the same shortcut under the same condition always have the same context. */
  lemma {:induction false} SameShortcutSameContext(left: Rule, right: Rule)
    requires S.Parse(left.key).Some? && S.Parse(left.key) == S.Parse(right.key)
    requires ConditionText(left) == ConditionText(right)
    ensures SameContext(left, right)
  {
    ContextOfParsed(left);
    ContextOfParsed(right);
  }

  /** Conversely, rules that compile share a context only if they share shortcut and condition. */
  lemma {:induction false} SameContextMeaning(left: Rule, right: Rule)
    requires Compile(left).Some? && Compile(right).Some?
    ensures SameContext(left, right) <==>
            Compile(left).value.shortcut == Compile(right).value.shortcut && left.condition == right.condition
  {
    ContextOfParsed(left);
    ContextOfParsed(right);
    ConditionOfCompiled(left);
    ConditionOfCompiled(right);
    var l, r := S.Parse(left.key).value, S.Parse(right.key).value;
    R.NormalForm(left.key);
    R.NormalForm(right.key);
    hide S.Parse, S.Encode, W.Parse, ShortcutContext;
    ReadContext(S.Encode(l).value, ConditionText(left), S.Encode(r).value, ConditionText(right));
  }

  /** The condition of a rule that compiles is not blank and cannot contain the separator. */
  lemma {:induction false} ConditionOfCompiled(rule: Rule)
    requires Compile(rule).Some?
    ensures NUL !in ConditionText(rule) && rule.condition != Some("")
  {
    if rule.condition.Some? {
      NoNulInTokens(rule.condition.value);
    }
  }

  lemma {:induction false} TokenizedFront(text: string)
    requires text != [] && W.Tokenize(text).Some?
    ensures IsSpace(text[0]) ==> W.Tokenize(text[1..]).Some?
    ensures !IsSpace(text[0]) ==> W.FirstToken(text).Some? && W.Tokenize(text[W.FirstToken(text).value.1..]).Some?
  {
    hide IsSpace, W.FirstToken;
  }

  lemma {:induction false} NoNulInParts(text: string, k: nat)
    requires k <= |text| && NUL !in text[..k] && NUL !in text[k..]
    ensures NUL !in text
  {
    assert text == text[..k] + text[k..];
  }

  lemma {:induction false} SpaceIsNoNul(text: string)
    requires text != [] && IsSpace(text[0])
    ensures NUL !in text[..1]
  {
    assert text[..1] == [text[0]];
  }

  lemma {:induction false} NoNulInTokens(text: string)
    requires W.Tokenize(text).Some?
    ensures NUL !in text
    decreases |text|
  {
    hide W.Tokenize, W.FirstToken, IsSpace;
    if text != [] {
      TokenizedFront(text);
      var length := 1;
      if IsSpace(text[0]) {
        SpaceIsNoNul(text);
      } else {
        length := W.FirstToken(text).value.1;
        NoNulInToken(text);
      }
      NoNulInTokens(text[length..]);
      NoNulInParts(text, length);
    }
  }

  lemma {:induction false} NoNulInToken(text: string)
    requires text != [] && W.FirstToken(text).Some?
    ensures NUL !in text[..W.FirstToken(text).value.1]
  {
    var token, length := W.FirstToken(text).value.0, W.FirstToken(text).value.1;
    if token.Name? {
      assert forall i :: 0 <= i < length ==> W.IsNameChar(text[..length][i]);
    } else if length == 1 {
      assert text[..length] == [text[0]];
    } else {
      assert text[..length] == [text[0], text[1]];
    }
  }

  /** A text without the separator is told apart from what precedes it. */
  lemma {:induction false} ReadContext(x: string, a: string, y: string, b: string)
    requires NUL !in a && NUL !in b
    ensures x + [NUL] + a == y + [NUL] + b <==> x == y && a == b
  {
    var s, t := x + [NUL] + a, y + [NUL] + b;
    assert s[|x| + 1..] == a && t[|y| + 1..] == b && s[..|x|] == x && t[..|y|] == y;
    LastIndexIs(s, NUL, |x|);
    LastIndexIs(t, NUL, |y|);
  }

  // ----- Backfill -----

  lemma {:induction false} MissingFacts(defaults: seq<Rule>, custom: seq<Rule>)
    ensures forall r :: r in MissingDefaults(defaults, custom) <==>
              r in defaults && !HasCommand(custom, r.command) && !Clashes(custom, r)
  {
    if defaults != [] {
      hide HasCommand, Clashes;
      MissingFacts(defaults[1..], custom);
      assert defaults == [defaults[0]] + defaults[1..];
    }
  }

  /** The added defaults. */
  function Added(defaults: seq<Rule>, custom: seq<Rule>): (added: seq<Rule>)
    requires BackfillConfig(defaults, custom).Some?
    ensures BackfillConfig(defaults, custom) == Some(custom + added)
  {
    var missing := MissingDefaults(defaults, custom);
    if |missing| <= MAX_COUNT - |custom| then missing else missing[..MAX_COUNT - |custom|]
  }

  /**
   Startup keeps the user's rules in front, stays within the cap, and adds only
   defaults that have no rule and clash with none; it adds all of those that fit.
   */
  lemma {:induction false} BackfillMeaning(defaults: seq<Rule>, custom: seq<Rule>)
    ensures match BackfillConfig(defaults, custom) {
              case None => MissingDefaults(defaults, custom) == [] || |custom| >= MAX_COUNT
              case Some(result) =>
                && custom <= result && |custom| < |result| <= MAX_COUNT
                && (forall i :: |custom| <= i < |result| ==>
                      result[i] in defaults && !HasCommand(custom, result[i].command) && !Clashes(custom, result[i]))
                && result[|custom|..] <= MissingDefaults(defaults, custom)
                && (|result| < MAX_COUNT ==> result[|custom|..] == MissingDefaults(defaults, custom))
            }
  {
    hide HasCommand, Clashes;
    MissingFacts(defaults, custom);
    if BackfillConfig(defaults, custom).Some? {
      var added := Added(defaults, custom);
      assert (custom + added)[|custom|..] == added;
      assert forall i :: 0 <= i < |added| ==> added[i] in MissingDefaults(defaults, custom);
    }
  }

  /** A second startup changes nothing. */
  lemma {:induction false} BackfillOnce(defaults: seq<Rule>, custom: seq<Rule>)
    requires BackfillConfig(defaults, custom).Some?
    ensures BackfillConfig(defaults, BackfillConfig(defaults, custom).value) == None
  {
    var missing, result := MissingDefaults(defaults, custom), BackfillConfig(defaults, custom).value;
    BackfillMeaning(defaults, custom);
    if |result| < MAX_COUNT {
      MissingFacts(defaults, custom);
      MissingFacts(defaults, result);
      forall r | r in missing
        ensures HasCommand(result, r.command)
      {
        var k :| 0 <= k < |missing| && missing[k] == r;
        assert result[|custom| + k] == result[|custom|..][k] == r;
      }
      var again := MissingDefaults(defaults, result);
      assert again != [] ==> again[0] in again;
      forall r
        ensures r !in again
      {
        LongerList(custom, result, r);
      }
    }
  }

  lemma {:induction false} LongerList(custom: seq<Rule>, result: seq<Rule>, rule: Rule)
    requires custom <= result
    ensures HasCommand(custom, rule.command) ==> HasCommand(result, rule.command)
    ensures Clashes(custom, rule) ==> Clashes(result, rule)
  {
    hide SameContext;
    if HasCommand(custom, rule.command) {
      var i :| 0 <= i < |custom| && custom[i].command == rule.command;
      assert result[i] == custom[i];
    }
    if Clashes(custom, rule) {
      var i :| 0 <= i < |custom| && SameContext(custom[i], rule);
      assert result[i] == custom[i];
    }
  }
}
