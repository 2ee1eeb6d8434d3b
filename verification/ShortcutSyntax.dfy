/**
 Keyboard shortcuts of keybinding rules: `encodeShortcut` of
 `ch3/apps/server/src/keybindings.ts` and `parseKeybindingShortcut` of
 `ch3/packages/shared/src/keybindings.ts`.
 */
module ShortcutSyntax {
  import opened Outcomes
  import opened Sequences
  import opened Text

  datatype Shortcut = Shortcut(key: string, meta: bool, ctrl: bool, shift: bool, alt: bool, mod: bool)

  // ----- Encoding -----

  function Modifiers(s: Shortcut): seq<string> {
    (if s.mod then ["mod"] else []) + (if s.meta then ["meta"] else []) + (if s.ctrl then ["ctrl"] else []) +
    (if s.alt then ["alt"] else []) + (if s.shift then ["shift"] else [])
  }

  function KeyText(key: string): string {
    if key == " " then "space" else key
  }

  function Encode(s: Shortcut): Option<string> {
    if s.key == [] then None
    else if s.key != "+" && '+' in s.key then None
    else Some(Join(Modifiers(s) + [KeyText(s.key)], "+"))
  }

  // ----- Parsing -----

  function TrimAll(parts: seq<string>): (r: seq<string>)
    ensures |r| == |parts| && forall i :: 0 <= i < |r| ==> r[i] == Trim(parts[i])
  {
    seq(|parts|, i requires 0 <= i < |parts| => Trim(parts[i]))
  }

  function DropEmptyTail(tokens: seq<string>): (r: seq<string>)
    ensures r <= tokens
  {
    if tokens != [] && tokens[|tokens| - 1] == [] then DropEmptyTail(tokens[..|tokens| - 1]) else tokens
  }

  /** The tokens of a key value; empty tokens at its end stand for the plus key. */
  function KeyTokens(value: string): seq<string> {
    var raw := TrimAll(Split(Lower(value), '+'));
    var kept := DropEmptyTail(raw);
    if |kept| < |raw| then kept + ["+"] else kept
  }

  function NormalizeKey(token: string): string {
    if token == "space" then " " else if token == "esc" then "escape" else token
  }

  /** The shortcut read so far; its key is empty until one is read. */
  function ReadToken(s: Shortcut, token: string): Option<Shortcut> {
    if token == "cmd" || token == "meta" then Some(s.(meta := true))
    else if token == "ctrl" || token == "control" then Some(s.(ctrl := true))
    else if token == "shift" then Some(s.(shift := true))
    else if token == "alt" || token == "option" then Some(s.(alt := true))
    else if token == "mod" then Some(s.(mod := true))
    else if s.key != [] then None
    else Some(s.(key := NormalizeKey(token)))
  }

  function ReadTokens(s: Shortcut, tokens: seq<string>): Option<Shortcut>
    decreases |tokens|
  {
    if tokens == [] then Some(s)
    else match ReadToken(s, tokens[0])
      case None => None
      case Some(next) => ReadTokens(next, tokens[1..])
  }

  const NO_KEYS := Shortcut([], false, false, false, false, false)

  predicate NoneEmpty(tokens: seq<string>) {
    forall i :: 0 <= i < |tokens| ==> tokens[i] != []
  }

  /** `parseKeybindingShortcut`. */
  function Parse(value: string): Option<Shortcut> {
    var tokens := KeyTokens(value);
    if !NoneEmpty(tokens) || tokens == [] then None
    else match ReadTokens(NO_KEYS, tokens)
      case None => None
      case Some(s) => if s.key == [] then None else Some(s)
  }

  // ----- What is encoded -----

  const MODIFIER_ORDER: seq<string> := ["mod", "meta", "ctrl", "alt", "shift"]

  function HasModifier(s: Shortcut): string -> bool {
    (word: string) =>
      (word == "mod" && s.mod) || (word == "meta" && s.meta) || (word == "ctrl" && s.ctrl) ||
      (word == "alt" && s.alt) || (word == "shift" && s.shift)
  }

  function If(flag: bool, word: string): seq<string> {
    if flag then [word] else []
  }

  lemma {:induction false} ModifiersGrouped(s: Shortcut)
    ensures Modifiers(s) ==
            If(s.mod, "mod") + (If(s.meta, "meta") + (If(s.ctrl, "ctrl") + (If(s.alt, "alt") + If(s.shift, "shift"))))
  {
  }

  lemma {:induction false} OneMoreModifier(s: Shortcut, i: nat, word: string, flag: bool, kept: seq<string>)
    requires i < 5 && MODIFIER_ORDER[i] == word && (HasModifier(s)(word) <==> flag)
    requires Picks(MODIFIER_ORDER[i + 1..], HasModifier(s), kept)
    ensures Picks(MODIFIER_ORDER[i..], HasModifier(s), If(flag, word) + kept)
  {
    hide Picks, HasModifier;
    var rest := MODIFIER_ORDER[i..];
    assert rest[1..] == MODIFIER_ORDER[i + 1..] && rest[0] == word;
    PicksCons(rest, HasModifier(s), kept);
  }

  lemma {:induction false} Flags(s: Shortcut)
    ensures var has := HasModifier(s);
            (has("mod") <==> s.mod) && (has("meta") <==> s.meta) && (has("ctrl") <==> s.ctrl) &&
            (has("alt") <==> s.alt) && (has("shift") <==> s.shift)
  {
  }

  lemma {:induction false} ModifiersInOrder(s: Shortcut)
    ensures Picks(MODIFIER_ORDER, HasModifier(s), Modifiers(s))
  {
    hide Picks, HasModifier, If, Modifiers;
    Flags(s);
    PicksNone(HasModifier(s));
    assert MODIFIER_ORDER[5..] == [] && MODIFIER_ORDER[0..] == MODIFIER_ORDER;
    var shift := If(s.shift, "shift") + [];
    OneMoreModifier(s, 4, "shift", s.shift, []);
    OneMoreModifier(s, 3, "alt", s.alt, shift);
    OneMoreModifier(s, 2, "ctrl", s.ctrl, If(s.alt, "alt") + shift);
    OneMoreModifier(s, 1, "meta", s.meta, If(s.ctrl, "ctrl") + (If(s.alt, "alt") + shift));
    OneMoreModifier(s, 0, "mod", s.mod, If(s.meta, "meta") + (If(s.ctrl, "ctrl") + (If(s.alt, "alt") + shift)));
    assert shift == If(s.shift, "shift");
    ModifiersGrouped(s);
  }

  /** The modifiers in their fixed order and then the key, joined by plus signs. */
  lemma {:induction false} EncodeMeaning(s: Shortcut)
    ensures Encode(s).Some? <==> s.key != "" && (s.key == "+" || '+' !in s.key)
    ensures Encode(s).Some? ==>
              exists words :: Picks(MODIFIER_ORDER, HasModifier(s), words) &&
                              Encode(s).value == Join(words + [if s.key == " " then "space" else s.key], "+")
  {
    hide Picks, Modifiers, Join;
    ModifiersInOrder(s);
  }

  // ----- Which key texts are accepted -----

  /** `raw` is `kept` followed by `count` empty tokens, and nothing empty is last in `kept`. */
  predicate EndsInEmpty(raw: seq<string>, kept: seq<string>, count: nat) {
    && |raw| == |kept| + count && kept <= raw && (kept != [] ==> kept[|kept| - 1] != "")
    && forall i :: |kept| <= i < |raw| ==> raw[i] == ""
  }

  lemma {:induction false} DroppedTail(raw: seq<string>)
    ensures EndsInEmpty(raw, DropEmptyTail(raw), |raw| - |DropEmptyTail(raw)|)
  {
    if raw != [] && raw[|raw| - 1] == [] {
      DroppedTail(raw[..|raw| - 1]);
    }
  }

  predicate AreTokens(value: string, kept: seq<string>, count: nat, tokens: seq<string>) {
    && EndsInEmpty(TrimAll(Split(Lower(value), '+')), kept, count)
    && tokens == if count > 0 then kept + ["+"] else kept
  }

  /** The tokens between plus signs, in lower case and trimmed; empty ones at the end make one plus key. */
  lemma {:induction false} KeyTokensMeaning(value: string)
    ensures exists kept, count: nat :: AreTokens(value, kept, count, KeyTokens(value))
  {
    hide TrimAll, Split, Lower, EndsInEmpty, DropEmptyTail;
    var raw := TrimAll(Split(Lower(value), '+'));
    var kept := DropEmptyTail(raw);
    DroppedTail(raw);
    var count: nat := |raw| - |kept|;
    assert AreTokens(value, kept, count, KeyTokens(value));
  }

  predicate IsModifier(token: string) {
    || token == "cmd" || token == "meta" || token == "ctrl" || token == "control" || token == "shift"
    || token == "alt" || token == "option" || token == "mod"
  }

  /** The tokens that name no modifier. */
  function KeysOf(tokens: seq<string>): seq<string> {
    if tokens == [] then []
    else (if IsModifier(tokens[0]) then [] else [tokens[0]]) + KeysOf(tokens[1..])
  }

  /** `s` with the modifiers that these tokens name. */
  function WithModifiers(s: Shortcut, tokens: seq<string>): (r: Shortcut)
    ensures r.key == s.key
  {
    Shortcut(
      s.key,
      s.meta || "cmd" in tokens || "meta" in tokens,
      s.ctrl || "ctrl" in tokens || "control" in tokens,
      s.shift || "shift" in tokens,
      s.alt || "alt" in tokens || "option" in tokens,
      s.mod || "mod" in tokens)
  }

  lemma {:induction false} ReadTokenMeaning(s: Shortcut, token: string)
    requires token != []
    ensures IsModifier(token) ==> ReadToken(s, token) == Some(WithModifiers(s, [token]))
    ensures !IsModifier(token) ==>
              ReadToken(s, token) == if s.key != [] then None else Some(s.(key := NormalizeKey(token)))
    ensures !IsModifier(token) ==> forall t :: WithModifiers(t, [token]) == t
    ensures NormalizeKey(token) != []
  {
  }

  lemma {:induction false} WithModifiersCons(s: Shortcut, token: string, rest: seq<string>)
    ensures WithModifiers(WithModifiers(s, [token]), rest) == WithModifiers(s, [token] + rest)
    ensures WithModifiers(s, []) == s
  {
    assert forall t :: t in [token] + rest <==> t == token || t in rest;
  }

  lemma {:induction false} KeyApart(s: Shortcut, tokens: seq<string>, key: string)
    ensures WithModifiers(s.(key := key), tokens) == WithModifiers(s, tokens).(key := key)
  {
  }

  lemma {:induction false} ReadTokensMeaning(s: Shortcut, tokens: seq<string>)
    requires NoneEmpty(tokens)
    ensures var keys := KeysOf(tokens);
            ReadTokens(s, tokens) ==
            if keys == [] then Some(WithModifiers(s, tokens))
            else if s.key != [] || |keys| > 1 then None
            else Some(WithModifiers(s, tokens).(key := NormalizeKey(keys[0])))
    ensures KeysOf(tokens) != [] ==> NormalizeKey(KeysOf(tokens)[0]) != []
    decreases |tokens|
  {
    hide ReadToken, WithModifiers, IsModifier, NormalizeKey;
    if tokens == [] {
      WithModifiersCons(s, [], []);
    } else {
      var token, rest := tokens[0], tokens[1..];
      assert tokens == [token] + rest;
      ReadTokenMeaning(s, token);
      WithModifiersCons(s, token, rest);
      assert NoneEmpty(rest);
      if IsModifier(token) {
        ReadTokensMeaning(WithModifiers(s, [token]), rest);
      } else if s.key == [] {
        var read := s.(key := NormalizeKey(token));
        ReadTokensMeaning(read, rest);
        WithModifiersCons(read, token, rest);
        KeyApart(s, tokens, read.key);
      }
    }
  }

  /**
   A key text is accepted exactly when no token is empty and exactly one names no
   modifier. That token is the key, and the others set their modifiers, in any order.
   */
  lemma {:induction false} AcceptedKeys(value: string)
    ensures var tokens := KeyTokens(value);
            && (Parse(value).Some? <==> NoneEmpty(tokens) && |KeysOf(tokens)| == 1)
            && (Parse(value).Some? ==>
                  Parse(value).value == WithModifiers(NO_KEYS, tokens).(key := NormalizeKey(KeysOf(tokens)[0])))
  {
    hide KeyTokens, ReadTokens, WithModifiers, NoneEmpty, KeysOf, NormalizeKey;
    var tokens := KeyTokens(value);
    NoToken();
    if NoneEmpty(tokens) {
      ReadTokensMeaning(NO_KEYS, tokens);
    }
  }

  lemma {:induction false} NoToken()
    ensures KeysOf([]) == []
  {
  }

  // ----- The parser's loops -----

  /** The loop that takes empty tokens off the end; if there were any, the key is the plus sign. */
  method DropTrailing(raw: seq<string>) returns (tokens: seq<string>)
    ensures tokens == if |DropEmptyTail(raw)| < |raw| then DropEmptyTail(raw) + ["+"] else DropEmptyTail(raw)
  {
    tokens := raw;
    var trailingEmptyCount := 0;
    while tokens != [] && tokens[|tokens| - 1] == []
      invariant DropEmptyTail(raw) == DropEmptyTail(tokens)
      invariant |tokens| + trailingEmptyCount == |raw|
      decreases |tokens|
    {
      trailingEmptyCount := trailingEmptyCount + 1;
      tokens := tokens[..|tokens| - 1];
    }
    if trailingEmptyCount > 0 {
      tokens := tokens + ["+"];
    }
  }

  lemma {:induction false} ReadTokensStep(s: Shortcut, tokens: seq<string>, i: nat)
    requires i <= |tokens|
    ensures i == |tokens| ==> ReadTokens(s, tokens[i..]) == Some(s)
    ensures i < |tokens| ==>
              ReadTokens(s, tokens[i..]) ==
              match ReadToken(s, tokens[i]) { case None => None case Some(next) => ReadTokens(next, tokens[i + 1..]) }
  {
    hide ReadToken;
    if i < |tokens| {
      assert tokens[i..][0] == tokens[i] && tokens[i..][1..] == tokens[i + 1..];
    }
  }

  /** The loop over the tokens. */
  method ReadShortcut(tokens: seq<string>) returns (r: Option<Shortcut>)
    ensures r == ReadTokens(NO_KEYS, tokens)
  {
    hide ReadToken, ReadTokens;
    var s := NO_KEYS;
    var i := 0;
    assert tokens[0..] == tokens;
    while i < |tokens|
      invariant 0 <= i <= |tokens|
      invariant ReadTokens(NO_KEYS, tokens) == ReadTokens(s, tokens[i..])
    {
      ReadTokensStep(s, tokens, i);
      var next := ReadToken(s, tokens[i]);
      if next.None? {
        return None;
      }
      s := next.value;
      i := i + 1;
    }
    ReadTokensStep(s, tokens, i);
    return Some(s);
  }

  method ParseKeybindingShortcut(value: string) returns (r: Option<Shortcut>)
    ensures r == Parse(value)
  {
    hide TrimAll, Split, Lower, DropEmptyTail, ReadTokens;
    var tokens := DropTrailing(TrimAll(Split(Lower(value), '+')));
    assert tokens == KeyTokens(value);
    hide KeyTokens;
    if !NoneEmpty(tokens) || tokens == [] {
      return None;
    }
    var shortcut := ReadShortcut(tokens);
    if shortcut.None? || shortcut.value.key == [] {
      return None;
    }
    return shortcut;
  }
}
