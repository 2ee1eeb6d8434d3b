/** Writing a shortcut out and reading it back. */
module ShortcutRoundTrip {
  import opened Outcomes
  import opened Text
  import opened ShortcutSyntax

  predicate Reserved(key: string) {
    key == "cmd" || key == "meta" || key == "ctrl" || key == "control" || key == "shift" ||
    key == "alt" || key == "option" || key == "mod" || key == "space" || key == "esc"
  }

  /** The keys a parsed shortcut can have. */
  predicate CanonicalKey(key: string) {
    key == " " ||
    (key != [] && Trimmed(key) && Lower(key) == key && (key == "+" || '+' !in key) && !Reserved(key))
  }

  /** The texts that splitting an encoding at the plus signs gives. */
  function Pieces(s: Shortcut): seq<string> {
    if s.key == "+" then Modifiers(s) + ["", ""] else Modifiers(s) + [KeyText(s.key)]
  }

  /** A nonempty token that trimming, lowering and splitting leave alone. */
  predicate PlainToken(m: string) {
    m != [] && '+' !in m && Trim(m) == m && Lower(m) == m
  }

  predicate PlainTokens(tokens: seq<string>) {
    forall i :: 0 <= i < |tokens| ==> PlainToken(tokens[i])
  }

  lemma {:induction false} PlainWord(m: string)
    requires m != [] && forall i :: 0 <= i < |m| ==> IsLower(m[i])
    ensures PlainToken(m)
  {
    TrimFacts(m);
  }

  lemma {:induction false} ModifiersArePlain(s: Shortcut)
    ensures PlainTokens(Modifiers(s))
  {
    PlainWord("mod");
    PlainWord("meta");
    PlainWord("ctrl");
    PlainWord("alt");
    PlainWord("shift");
    hide PlainToken;
  }

  lemma {:induction false} JoinPlusKey(mods: seq<string>)
    ensures Join(mods + ["+"], "+") == Join(mods + ["", ""], "+")
  {
    if mods == [] {
      assert [] + ["+"] == ["+"] && [] + ["", ""] == ["", ""];
      assert ["", ""][1..] == [""];
    } else {
      JoinPlusKey(mods[1..]);
      assert (mods + ["+"])[1..] == mods[1..] + ["+"];
      assert (mods + ["", ""])[1..] == mods[1..] + ["", ""];
    }
  }

  lemma {:induction false} SplitEncoding(s: Shortcut)
    requires Encode(s).Some?
    ensures Split(Encode(s).value, '+') == Pieces(s)
  {
    ModifiersArePlain(s);
    if s.key == "+" {
      JoinPlusKey(Modifiers(s));
    }
    SplitJoin(Pieces(s), '+');
  }

  // ----- Injectivity -----

  lemma {:induction false} ModifiersTell(s: Shortcut)
    ensures ("mod" in Modifiers(s) <==> s.mod) && ("meta" in Modifiers(s) <==> s.meta)
    ensures ("ctrl" in Modifiers(s) <==> s.ctrl) && ("alt" in Modifiers(s) <==> s.alt)
    ensures "shift" in Modifiers(s) <==> s.shift
  {
  }

  /** Only the space key and the key named "space" share an encoding. */
  lemma {:induction false} EncodeInjective(a: Shortcut, b: Shortcut)
    requires Encode(a).Some? && Encode(a) == Encode(b)
    ensures a == b.(key := a.key) && KeyText(a.key) == KeyText(b.key)
  {
    SplitEncoding(a);
    SplitEncoding(b);
    PiecesTell(a, b);
    ModifiersTell(a);
    ModifiersTell(b);
    hide Modifiers, Encode, Pieces;
  }

  lemma {:induction false} PiecesTell(a: Shortcut, b: Shortcut)
    requires a.key != [] && b.key != [] && Pieces(a) == Pieces(b)
    ensures Modifiers(a) == Modifiers(b) && KeyText(a.key) == KeyText(b.key)
  {
    hide Modifiers;
    var x, y := Pieces(a), Pieces(b);
    assert x[|x| - 1] == y[|y| - 1];
    assert a.key == "+" <==> x[|x| - 1] == "";
    assert b.key == "+" <==> y[|y| - 1] == "";
    var dropped := if a.key == "+" then 2 else 1;
    assert Modifiers(a) == x[..|x| - dropped] && Modifiers(b) == y[..|y| - dropped];
  }

  // ----- The round trip -----

  lemma {:induction false} LowerJoin(parts: seq<string>)
    requires forall i :: 0 <= i < |parts| ==> Lower(parts[i]) == parts[i]
    ensures Lower(Join(parts, "+")) == Join(parts, "+")
  {
    if |parts| > 1 {
      LowerJoin(parts[1..]);
      LowerAppend(parts[0], "+");
      LowerAppend(parts[0] + "+", Join(parts[1..], "+"));
    }
  }

  lemma {:induction false} LowerAppend(a: string, b: string)
    requires Lower(a) == a && Lower(b) == b
    ensures Lower(a + b) == a + b
  {
    forall i | 0 <= i < |a + b|
      ensures LowerChar((a + b)[i]) == (a + b)[i]
    {
      if i < |a| {
        assert Lower(a)[i] == a[i];
      } else {
        assert Lower(b)[i - |a|] == b[i - |a|];
      }
    }
  }

  /** A canonical key's text is a plain token that names no modifier, or the plus sign. */
  lemma {:induction false} KeyTextFacts(key: string)
    requires CanonicalKey(key)
    ensures var t := KeyText(key);
            && (key == "+" || PlainToken(t)) && (t == "+" <==> key == "+")
            && (Reserved(t) ==> t == "space") && NormalizeKey(t) == key
  {
    if key == " " {
      PlainWord("space");
    }
    TrimFacts(KeyText(key));
  }

  lemma {:induction false} DropsOnlyPadding(tokens: seq<string>)
    requires tokens == [] || tokens[|tokens| - 1] != []
    ensures DropEmptyTail(tokens) == tokens && DropEmptyTail(tokens + ["", ""]) == tokens
  {
    var one, two := tokens + [""], tokens + ["", ""];
    assert two[..|two| - 1] == one && one[..|one| - 1] == tokens;
  }

  lemma {:induction false} EncodingIsLower(s: Shortcut)
    requires CanonicalKey(s.key)
    ensures Encode(s).Some? && Lower(Encode(s).value) == Encode(s).value
  {
    hide Modifiers, Join;
    KeyTextFacts(s.key);
    ModifiersArePlain(s);
    LowerJoin(Modifiers(s) + [KeyText(s.key)]);
  }

  lemma {:induction false} PiecesStay(s: Shortcut)
    requires CanonicalKey(s.key)
    ensures TrimAll(Pieces(s)) == Pieces(s)
    ensures DropEmptyTail(Pieces(s)) == if s.key == "+" then Modifiers(s) else Pieces(s)
  {
    hide Modifiers;
    KeyTextFacts(s.key);
    ModifiersArePlain(s);
    DropsOnlyPadding(Modifiers(s));
    DropsOnlyPadding(Modifiers(s) + [KeyText(s.key)]);
  }

  /** Reading a canonical shortcut's encoding yields its modifiers and its key. */
  lemma {:induction false} TokensOfEncoding(s: Shortcut)
    requires CanonicalKey(s.key)
    ensures Encode(s).Some? && KeyTokens(Encode(s).value) == Modifiers(s) + [KeyText(s.key)]
  {
    EncodingIsLower(s);
    SplitEncoding(s);
    PiecesStay(s);
    hide Modifiers, Encode, Join, Split, TrimAll, Lower, CanonicalKey, DropEmptyTail;
  }

  lemma {:induction false} ReadAppend(s: Shortcut, a: seq<string>, b: seq<string>)
    ensures ReadTokens(s, a + b) == match ReadTokens(s, a) { case None => None case Some(t) => ReadTokens(t, b) }
    decreases |a|
  {
    if a == [] {
      assert a + b == b;
    } else {
      assert (a + b)[1..] == a[1..] + b;
      match ReadToken(s, a[0])
      case None =>
      case Some(t) => ReadAppend(t, a[1..], b);
    }
  }

  lemma {:induction false} ReadOne(s: Shortcut, token: string)
    ensures ReadTokens(s, [token]) == ReadToken(s, token) && ReadTokens(s, []) == Some(s)
  {
    assert [token][1..] == [];
  }

  lemma {:induction false} ReadModifiers(s: Shortcut)
    ensures ReadTokens(NO_KEYS, Modifiers(s)) == Some(s.(key := []))
  {
    var mod, meta, ctrl, alt, shift :=
      if s.mod then ["mod"] else [], if s.meta then ["meta"] else [], if s.ctrl then ["ctrl"] else [],
      if s.alt then ["alt"] else [], if s.shift then ["shift"] else [];
    var s1 := NO_KEYS.(mod := s.mod);
    var s2 := s1.(meta := s.meta);
    var s3 := s2.(ctrl := s.ctrl);
    var s4 := s3.(alt := s.alt);
    ReadOne(NO_KEYS, "mod");
    ReadOne(s1, "meta");
    ReadAppend(NO_KEYS, mod, meta);
    ReadOne(s2, "ctrl");
    ReadAppend(NO_KEYS, mod + meta, ctrl);
    ReadOne(s3, "alt");
    ReadAppend(NO_KEYS, mod + meta + ctrl, alt);
    ReadOne(s4, "shift");
    ReadAppend(NO_KEYS, mod + meta + ctrl + alt, shift);
  }

  lemma {:induction false} ReadsBack(s: Shortcut)
    requires CanonicalKey(s.key)
    ensures var tokens := Modifiers(s) + [KeyText(s.key)]; NoneEmpty(tokens) && ReadTokens(NO_KEYS, tokens) == Some(s)
  {
    KeyTextFacts(s.key);
    ModifiersArePlain(s);
    ReadModifiers(s);
    ReadAppend(NO_KEYS, Modifiers(s), [KeyText(s.key)]);
    ReadOne(s.(key := []), KeyText(s.key));
    hide Modifiers, KeyText, ReadTokens, CanonicalKey, NormalizeKey;
  }

  lemma {:induction false} CanonicalRoundTrip(s: Shortcut)
    requires CanonicalKey(s.key)
    ensures Encode(s).Some? && Parse(Encode(s).value) == Some(s)
  {
    TokensOfEncoding(s);
    ReadsBack(s);
    hide Modifiers, KeyTokens, ReadTokens, Encode, NoneEmpty;
  }

  // ----- What a parse can yield -----

  predicate CanonicalToken(t: string) {
    t == "+" || (Trimmed(t) && Lower(t) == t && '+' !in t)
  }

  lemma {:induction false} SplitParts(s: string)
    requires Lower(s) == s
    ensures forall i :: 0 <= i < |Split(s, '+')| ==>
            '+' !in Split(s, '+')[i] && Lower(Split(s, '+')[i]) == Split(s, '+')[i]
  {
    if s != [] {
      var tail := s[1..];
      assert Lower(tail) == tail by {
        assert forall i :: 0 <= i < |tail| ==> LowerChar(tail[i]) == Lower(s)[i + 1];
      }
      assert Lower([s[0]]) == [s[0]] by {
        assert LowerChar(s[0]) == Lower(s)[0];
      }
      SplitParts(tail);
      var rest := Split(tail, '+');
      if s[0] != '+' {
        LowerAppend([s[0]], rest[0]);
      }
    }
  }

  lemma {:induction false} LowerTwice(s: string)
    ensures Lower(Lower(s)) == Lower(s)
  {
  }

  lemma {:induction false} LowerSlice(t: string, i: nat, j: nat)
    requires i <= j <= |t| && '+' !in t && Lower(t) == t
    ensures '+' !in t[i..j] && Lower(t[i..j]) == t[i..j]
  {
    forall k | 0 <= k < j - i
      ensures LowerChar(t[i..j][k]) == t[i..j][k]
    {
      assert Lower(t)[i + k] == t[i + k];
    }
  }

  lemma {:induction false} TrimKeepsToken(t: string)
    requires '+' !in t && Lower(t) == t
    ensures CanonicalToken(Trim(t))
  {
    TrimFacts(t);
    var i, j := TrimSlice(t);
    LowerSlice(t, i, j);
    hide Trim, Trimmed, Lower;
  }

  lemma {:induction false} ParsedTokens(value: string)
    ensures forall i :: 0 <= i < |KeyTokens(value)| ==> CanonicalToken(KeyTokens(value)[i])
  {
    LowerTwice(value);
    var parts := Split(Lower(value), '+');
    SplitParts(Lower(value));
    forall i | 0 <= i < |parts|
      ensures CanonicalToken(TrimAll(parts)[i])
    {
      TrimKeepsToken(parts[i]);
    }
  }

  lemma {:induction false} TokenToKey(token: string)
    requires token != [] && CanonicalToken(token)
    ensures !Reserved(token) || token == "space" || token == "esc" ==> CanonicalKey(NormalizeKey(token))
  {
    PlainWord("escape");
    TrimFacts("escape");
  }

  lemma {:induction false} ReadTokenKey(s: Shortcut, token: string)
    requires token != [] && CanonicalToken(token) && (s.key != [] ==> CanonicalKey(s.key))
    ensures ReadToken(s, token).Some? ==> ReadToken(s, token).value.key != [] ==>
            CanonicalKey(ReadToken(s, token).value.key)
  {
    TokenToKey(token);
    hide CanonicalKey, CanonicalToken, NormalizeKey;
  }

  lemma {:induction false} ReadTokensKey(s: Shortcut, tokens: seq<string>)
    requires forall i :: 0 <= i < |tokens| ==> tokens[i] != [] && CanonicalToken(tokens[i])
    requires s.key != [] ==> CanonicalKey(s.key)
    ensures ReadTokens(s, tokens).Some? ==> ReadTokens(s, tokens).value.key != [] ==>
            CanonicalKey(ReadTokens(s, tokens).value.key)
    decreases |tokens|
  {
    if tokens != [] {
      ReadTokenKey(s, tokens[0]);
      match ReadToken(s, tokens[0])
      case None =>
      case Some(next) => ReadTokensKey(next, tokens[1..]);
    }
  }

  lemma {:induction false} ParsedIsCanonical(value: string)
    requires Parse(value).Some?
    ensures CanonicalKey(Parse(value).value.key)
  {
    ParsedTokens(value);
    ReadTokensKey(NO_KEYS, KeyTokens(value));
  }

  /** Encoding and parsing is the identity exactly on canonical keys. */
  lemma {:induction false} RoundTrip(s: Shortcut)
    ensures (Encode(s).Some? && Parse(Encode(s).value) == Some(s)) <==> CanonicalKey(s.key)
  {
    if CanonicalKey(s.key) {
      CanonicalRoundTrip(s);
    } else if Encode(s).Some? && Parse(Encode(s).value) == Some(s) {
      ParsedIsCanonical(Encode(s).value);
    }
  }

  /** Every accepted key value can be written out again, and means the same shortcut then. */
  lemma {:induction false} NormalForm(value: string)
    requires Parse(value).Some?
    ensures var e := Encode(Parse(value).value); e.Some? && Parse(e.value) == Parse(value)
  {
    ParsedIsCanonical(value);
    CanonicalRoundTrip(Parse(value).value);
  }
}
