/** When `compareStableVersions` follows section 11 of Semantic Versioning 2.0.0 on tags. */
module SemVerOrder {
  import opened Outcomes
  import opened Text
  import opened ReleaseOrder
  import opened ReleaseTags
  import opened StableTags

  /** Comparison in code-unit order, which for identifiers is ASCII order. */
  function AsciiCompare(l: string, r: string): int {
    if l == r then 0 else if LexLe(l, r) then -1 else 1
  }

  lemma {:induction false} AsciiPreorder()
    ensures TotalPreorder(AsciiCompare)
  {
    forall x, y
      ensures AsciiCompare(x, y) < 0 <==> AsciiCompare(y, x) > 0
    {
      LexTotal(x, y);
    }
    forall x, y, z | AsciiCompare(x, y) <= 0 && AsciiCompare(y, z) <= 0
      ensures AsciiCompare(x, z) <= 0
    {
      LexTotal(x, y);
      LexTotal(y, z);
      LexTotal(x, z);
      if LexLe(x, y) && LexLe(y, z) {
        LexTransitive(x, y, z);
      }
    }
  }

  /** The two text comparisons put the same non-numeric tag identifiers below each other. */
  ghost predicate AgreeOnTags(a: (string, string) -> int, b: (string, string) -> int) {
    forall x, y :: TagText(x) && TagText(y) ==> (a(x, y) < 0 <==> b(x, y) < 0)
  }

  predicate TagText(x: string) {
    TagIdentifier(x) && !IsNumeric(x)
  }

  /** The code puts tag `t` below tag `u` exactly when section 11, which asks for ASCII order, does. */
  predicate FollowsOn(text: (string, string) -> int, t: string, u: string) {
    var l, r := ParseStableTag(t), ParseStableTag(u);
    l.Some? && r.Some? ==>
      (CompareStable(text, l.value, r.value) < 0 <==> LowerPrecedence(AsciiCompare, l.value, r.value))
  }

  lemma {:induction false} SameIdentifiers(a: (string, string) -> int, b: (string, string) -> int, x: string, y: string)
    requires TotalPreorder(a) && TotalPreorder(b) && AgreeOnTags(a, b) && TagIdentifier(x) && TagIdentifier(y)
    ensures SameIdentifier(a, x, y) <==> SameIdentifier(b, x, y)
    ensures LowerIdentifier(a, x, y) <==> LowerIdentifier(b, x, y)
  {
    assert a(x, y) < 0 <==> a(y, x) > 0;
    assert a(y, x) < 0 <==> a(x, y) > 0;
    assert b(x, y) < 0 <==> b(y, x) > 0;
    assert b(y, x) < 0 <==> b(x, y) > 0;
    hide TagIdentifier, IsNumeric;
    if TagText(x) && TagText(y) {
      assert a(x, y) < 0 <==> b(x, y) < 0;
      assert a(y, x) < 0 <==> b(y, x) < 0;
    }
  }

  lemma {:induction false} SamePrecedence(a: (string, string) -> int, b: (string, string) -> int, l: StableVersion,
      r: StableVersion)
    requires TotalPreorder(a) && TotalPreorder(b) && AgreeOnTags(a, b) && TagVersion(l) && TagVersion(r)
    ensures LowerPrecedence(a, l, r) <==> LowerPrecedence(b, l, r)
  {
    forall k | 0 <= k < |l.prerelease| && k < |r.prerelease|
      ensures SameIdentifier(a, l.prerelease[k], r.prerelease[k]) <==>
              SameIdentifier(b, l.prerelease[k], r.prerelease[k])
      ensures LowerIdentifier(a, l.prerelease[k], r.prerelease[k]) <==>
              LowerIdentifier(b, l.prerelease[k], r.prerelease[k])
    {
      SameIdentifiers(a, b, l.prerelease[k], r.prerelease[k]);
    }
    hide SameIdentifier, LowerIdentifier, TotalPreorder, AgreeOnTags;
    forall k: nat
      ensures DecidesAt(a, l.prerelease, r.prerelease, k) <==> DecidesAt(b, l.prerelease, r.prerelease, k)
    {
    }
  }

  // ----- One pair of tags -----

  /** Two identifiers that no text comparison tells apart: the same text, or the same number. */
  predicate Alike(x: string, y: string) {
    x == y || (IsNumeric(x) && IsNumeric(y) && DigitsValue(x) == DigitsValue(y))
  }

  /** Position `k` is the first at which the identifiers are not alike, and both are texts there. */
  predicate TextsDifferAt(l: seq<string>, r: seq<string>, k: nat) {
    && k < |l| && k < |r|
    && (forall i :: 0 <= i < k ==> Alike(l[i], r[i]))
    && !IsNumeric(l[k]) && !IsNumeric(r[k]) && l[k] != r[k]
  }

  /** What the two texts say, or what follows them if the locale holds them equal. */
  function Verdict(text: (string, string) -> int, l: seq<string>, r: seq<string>, k: nat): int
    requires k < |l| && k < |r|
  {
    if text(l[k], r[k]) != 0 then text(l[k], r[k]) else ComparePrerelease(text, l[k + 1..], r[k + 1..])
  }

  lemma {:induction false} ComparedAt(text: (string, string) -> int, l: seq<string>, r: seq<string>, k: nat)
    requires TotalPreorder(text) && TextsDifferAt(l, r, k)
    ensures ComparePrerelease(text, l, r) == Verdict(text, l, r, k)
    decreases k
  {
    if k > 0 {
      assert Alike(l[0], r[0]);
      assert CompareIdentifiers(text, l[0], r[0]) == 0;
      assert forall i :: 0 <= i < k - 1 ==> l[1..][i] == l[i + 1] && r[1..][i] == r[i + 1];
      ComparedAt(text, l[1..], r[1..], k - 1);
      assert l[1..][k..] == l[k + 1..] && r[1..][k..] == r[k + 1..];
    }
  }

  /**
   On a pair whose first difference is between two texts, the code follows section
   11 exactly when its verdict on them is that of ASCII order.
   */
  lemma {:induction false} PairAgreement(text: (string, string) -> int, l: StableVersion, r: StableVersion, k: nat)
    requires TotalPreorder(text)
    requires l.major == r.major && l.minor == r.minor && l.patch == r.patch
    requires TextsDifferAt(l.prerelease, r.prerelease, k)
    ensures (CompareStable(text, l, r) < 0 <==> LowerPrecedence(AsciiCompare, l, r)) <==>
            (Verdict(text, l.prerelease, r.prerelease, k) < 0 <==> AsciiCompare(l.prerelease[k], r.prerelease[k]) < 0)
  {
    AsciiPreorder();
    StableMeaning(AsciiCompare, l, r);
    LexTotal(l.prerelease[k], r.prerelease[k]);
    assert AsciiCompare(l.prerelease[k], r.prerelease[k]) != 0;
    hide TotalPreorder, AsciiCompare, LowerPrecedence, TextsDifferAt;
    assert l.prerelease != [] && r.prerelease != [] by {
      NotEmpty(l.prerelease, r.prerelease, k);
    }
    ComparedAt(text, l.prerelease, r.prerelease, k);
    ComparedAt(AsciiCompare, l.prerelease, r.prerelease, k);
  }

  lemma {:induction false} NotEmpty(l: seq<string>, r: seq<string>, k: nat)
    requires TextsDifferAt(l, r, k)
    ensures l != [] && r != []
  {
  }

  /** Two versions whose second identifiers are the texts to compare. */
  function Probe(x: string): StableVersion {
    StableVersion(1, 0, 0, ["0", x])
  }

  lemma {:induction false} ProbeParses(x: string)
    requires TagText(x)
    ensures ParseStableTag(StableTag(Probe(x))) == Some(Probe(x))
  {
    assert TagIdentifier("0");
    hide TagIdentifier;
    StableTagRoundTrip(Probe(x));
  }

  lemma {:induction false} ProbesCompare(text: (string, string) -> int, x: string, y: string)
    requires TotalPreorder(text) && TagText(x) && TagText(y)
    ensures CompareStable(text, Probe(x), Probe(y)) == text(x, y)
  {
    assert ["0", x][1..] == [x] && ["0", y][1..] == [y] && [x][1..] == [] && [y][1..] == [];
    assert IsNumeric("0");
    assert CompareIdentifiers(text, "0", "0") == 0;
    assert ComparePrerelease(text, [], []) == 0;
    assert ComparePrerelease(text, [x], [y]) == text(x, y);
    assert ComparePrerelease(text, ["0", x], ["0", y]) == text(x, y);
  }

  // ----- All tags -----

  /** The code follows section 11 on all tags exactly when the locale orders tag texts as ASCII. */
  lemma {:induction false} SemVerAgreement(text: (string, string) -> int)
    requires TotalPreorder(text)
    ensures (forall t, u :: FollowsOn(text, t, u)) <==> AgreeOnTags(text, AsciiCompare)
  {
    AsciiPreorder();
    hide AsciiCompare, LowerPrecedence, CompareStable, ParseStableTag, StableTag, TotalPreorder, Probe;
    if AgreeOnTags(text, AsciiCompare) {
      forall t, u
        ensures FollowsOn(text, t, u)
      {
        ParsedIsTagVersion(t);
        ParsedIsTagVersion(u);
        if ParseStableTag(t).Some? && ParseStableTag(u).Some? {
          SamePrecedence(text, AsciiCompare, ParseStableTag(t).value, ParseStableTag(u).value);
          StableMeaning(text, ParseStableTag(t).value, ParseStableTag(u).value);
        }
      }
    }
    if forall t, u :: FollowsOn(text, t, u) {
      forall x, y | TagText(x) && TagText(y)
        ensures text(x, y) < 0 <==> AsciiCompare(x, y) < 0
      {
        ProbeParses(x);
        ProbeParses(y);
        assert FollowsOn(text, StableTag(Probe(x)), StableTag(Probe(y)));
        ProbesCompare(text, x, y);
        ProbesCompare(AsciiCompare, x, y);
        StableMeaning(AsciiCompare, Probe(x), Probe(y));
      }
    }
  }

  lemma {:induction false} OneLetter(text: (string, string) -> int, x: string, y: string)
    requires TotalPreorder(text) && !IsNumeric(x) && !IsNumeric(y) && text(x, y) != 0
    ensures CompareStable(text, StableVersion(1, 0, 0, [x]), StableVersion(1, 0, 0, [y])) == text(x, y)
  {
    hide IsNumeric;
    assert text(x, x) == 0;
    assert TextsDifferAt([x], [y], 0);
    ComparedAt(text, [x], [y], 0);
  }

  lemma {:induction false} LetterFacts()
    ensures AsciiCompare("B", "a") < 0 && AsciiCompare("a", "B") > 0 && !IsNumeric("a") && !IsNumeric("B")
  {
    assert LexLe("B", "a") && !LexLe("a", "B");
  }

  lemma {:induction false} LettersReverse(text: (string, string) -> int)
    requires TotalPreorder(text) && text("a", "B") < 0
    ensures var l, r := StableVersion(1, 0, 0, ["a"]), StableVersion(1, 0, 0, ["B"]);
            && CompareStable(text, l, r) < 0
            && !LowerPrecedence(AsciiCompare, l, r) && LowerPrecedence(AsciiCompare, r, l)
  {
    LetterFacts();
    AsciiPreorder();
    hide AsciiCompare, LowerPrecedence, CompareStable, TotalPreorder, IsNumeric;
    var l, r := StableVersion(1, 0, 0, ["a"]), StableVersion(1, 0, 0, ["B"]);
    OneLetter(text, "a", "B");
    OneLetter(AsciiCompare, "a", "B");
    OneLetter(AsciiCompare, "B", "a");
    StableMeaning(AsciiCompare, l, r);
    StableMeaning(AsciiCompare, r, l);
  }

  /** A locale that puts `a` before `B` orders the tags `v1.0.0-a` and `v1.0.0-B` against section 11. */
  lemma {:induction false} LocaleReverses(text: (string, string) -> int)
    requires TotalPreorder(text) && text("a", "B") < 0
    ensures var l, r := ParseStableTag("v1.0.0-a"), ParseStableTag("v1.0.0-B");
            && l == Some(StableVersion(1, 0, 0, ["a"])) && r == Some(StableVersion(1, 0, 0, ["B"]))
            && CompareStable(text, l.value, r.value) < 0
            && !LowerPrecedence(AsciiCompare, l.value, r.value) && LowerPrecedence(AsciiCompare, r.value, l.value)
            && !FollowsOn(text, "v1.0.0-a", "v1.0.0-B")
  {
    hide AsciiCompare, LowerPrecedence, CompareStable, TotalPreorder, ParseStableTag;
    LetterTag("a");
    LetterTag("B");
    assert "v1.0.0-a" == "v1.0.0-" + "a" && "v1.0.0-B" == "v1.0.0-" + "B";
    LettersReverse(text);
  }

  lemma {:induction false} LetterTag(letter: string)
    requires |letter| == 1 && IsLetter(letter[0])
    ensures ParseStableTag("v1.0.0-" + letter) == Some(StableVersion(1, 0, 0, [letter]))
  {
    var v := StableVersion(1, 0, 0, [letter]);
    assert TagVersion(v) by {
      assert |"nightly"| == 7;
      assert [letter][0] == letter;
    }
    StableTagRoundTrip(v);
    LetterTagText(letter);
    hide ParseStableTag, StableTag;
  }

  lemma {:induction false} LetterTagText(letter: string)
    ensures StableTag(StableVersion(1, 0, 0, [letter])) == "v1.0.0-" + letter
  {
    assert NatText(1) == "1" && NatText(0) == "0";
    hide NatText;
    assert Join([letter], ".") == letter;
    hide Join;
    assert "1" + "." + "0" + "." + "0" + ("-" + letter) == "1.0.0-" + letter;
  }
}
