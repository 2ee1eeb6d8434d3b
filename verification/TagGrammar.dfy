/** Which tags and desktop versions the release scripts accept, said by how they are spelled. */
module TagGrammar {
  import opened Outcomes
  import opened Text
  import opened ReleaseOrder
  import opened ReleaseTags
  import opened NightlyTags

  // ----- The core of a version -----

  function CoreText(major: string, minor: string, patch: string): string {
    major + "." + minor + "." + patch
  }

  predicate AreNumeric(major: string, minor: string, patch: string) {
    IsNumeric(major) && IsNumeric(minor) && IsNumeric(patch)
  }

  lemma {:induction false} DigitPrefixEnds(s: string)
    ensures var p := DigitPrefix(s); s == p + s[|p|..] && (s[|p|..] == [] || !IsDigit(s[|p|..][0]))
  {
    hide IsDigit;
    if s != [] && IsDigit(s[0]) {
      DigitPrefixEnds(s[1..]);
      assert s[|DigitPrefix(s)|..] == s[1..][|DigitPrefix(s[1..])|..];
    }
  }

  /** What the scanner takes for the core is spelled at the front of the text, and no digit follows. */
  lemma {:induction false} ScanIsSpelled(s: string)
    requires ScanCore(s).Some?
    ensures var Core(major, minor, patch, rest) := ScanCore(s).value;
            s == CoreText(major, minor, patch) + rest && (rest == [] || !IsDigit(rest[0]))
  {
    hide DigitPrefix, IsDigit, CoreText;
    var Core(major, minor, patch, rest) := ScanCore(s).value;
    DigitPrefixEnds(s);
    var afterMajor := s[|major|..];
    DigitPrefixEnds(afterMajor[1..]);
    var afterMinor := afterMajor[1..][|minor|..];
    DigitPrefixEnds(afterMinor[1..]);
    DotFirst(afterMajor);
    DotFirst(afterMinor);
    CoreParts(major, minor, patch, rest);
  }

  lemma {:induction false} DotFirst(s: string)
    requires s != [] && s[0] == '.'
    ensures s == "." + s[1..]
  {
  }

  lemma {:induction false} CoreParts(major: string, minor: string, patch: string, rest: string)
    ensures major + ("." + (minor + ("." + (patch + rest)))) == CoreText(major, minor, patch) + rest
  {
  }

  /** Exactly one way to read a core that no digit follows. */
  lemma {:induction false} ScanMeaning(s: string, major: string, minor: string, patch: string, rest: string)
    requires rest == [] || !IsDigit(rest[0])
    ensures ScanCore(s) == Some(Core(major, minor, patch, rest)) <==>
            AreNumeric(major, minor, patch) && s == CoreText(major, minor, patch) + rest
  {
    hide ScanCore, IsDigit;
    if ScanCore(s).Some? {
      ScanIsSpelled(s);
    }
    if AreNumeric(major, minor, patch) && s == CoreText(major, minor, patch) + rest {
      ScanPrinted(major, minor, patch, rest);
    }
  }

  // ----- Stable tags -----

  predicate IsPart(s: string) {
    s != [] && AllTagChars(s)
  }

  function Suffix(prerelease: Option<string>, build: Option<string>): string {
    (if prerelease.Some? then "-" + prerelease.value else "") + if build.Some? then "+" + build.value else ""
  }

  /** `v`, three numbers, perhaps a pre-release and perhaps build metadata, which counts for nothing. */
  predicate SpelledStable(tag: string, v: StableVersion, major: string, minor: string, patch: string,
      prerelease: Option<string>, build: Option<string>) {
    && AreNumeric(major, minor, patch)
    && (prerelease.Some? ==> IsPart(prerelease.value)) && (build.Some? ==> IsPart(build.value))
    && tag == "v" + (CoreText(major, minor, patch) + Suffix(prerelease, build))
    && v == StableVersion(DigitsValue(major), DigitsValue(minor), DigitsValue(patch),
                          if prerelease.Some? then Split(prerelease.value, '.') else [])
    && (v.prerelease != [] ==> v.prerelease[0] != "nightly")
  }

  ghost predicate SpellsStable(tag: string, v: StableVersion) {
    exists major, minor, patch, prerelease, build :: SpelledStable(tag, v, major, minor, patch, prerelease, build)
  }

  lemma {:induction false} TagCharPrefixOf(s: string, rest: string)
    requires AllTagChars(s) && (rest == [] || !IsTagChar(rest[0]))
    ensures TagCharPrefix(s + rest) == s
  {
    hide IsTagChar;
    if s == [] {
      assert s + rest == rest;
    } else {
      TagCharPrefixOf(s[1..], rest);
      assert (s + rest)[1..] == s[1..] + rest;
      assert s == [s[0]] + s[1..];
    }
  }

  lemma {:induction false} Signs()
    ensures !IsTagChar('+') && !IsDigit('+') && !IsDigit('-')
  {
  }

  lemma {:induction false} SpelledIsStable(tag: string, v: StableVersion, major: string, minor: string, patch: string,
      prerelease: Option<string>, build: Option<string>)
    requires SpelledStable(tag, v, major, minor, patch, prerelease, build)
    ensures ParseStableTag(tag) == Some(v)
  {
    hide ScanCore, Split, TagCharPrefix, IsTagChar, IsDigit, IsNumeric, CoreText, DigitsValue;
    var rest := Suffix(prerelease, build);
    var end := if build.Some? then "+" + build.value else "";
    Signs();
    assert tag[0] == 'v' && tag[1..] == CoreText(major, minor, patch) + rest;
    ScanMeaning(tag[1..], major, minor, patch, rest);
    assert build.Some? ==> end[0] == '+' && end[1..] == build.value;
    if prerelease.Some? {
      assert rest[1..] == prerelease.value + end && rest[0] == '-';
      TagCharPrefixOf(prerelease.value, end);
      assert rest[1..][|prerelease.value|..] == end;
    } else {
      assert rest == end;
    }
  }

  lemma {:induction false} StableIsSpelled(tag: string)
    requires ParseStableTag(tag).Some?
    ensures SpellsStable(tag, ParseStableTag(tag).value)
  {
    hide ScanCore, Split, TagCharPrefix, IsTagChar, IsDigit, IsNumeric, CoreText, DigitsValue;
    var v := ParseStableTag(tag).value;
    var Core(major, minor, patch, rest) := ScanCore(tag[1..]).value;
    ScanIsSpelled(tag[1..]);
    ScanMeaning(tag[1..], major, minor, patch, rest);
    assert tag == "v" + tag[1..];
    hide AllTagChars, Suffix, IsBuildSuffix;
    if rest != [] && rest[0] == '-' {
      var text := TagCharPrefix(rest[1..]);
      var end := rest[1..][|text|..];
      FrontAndEnd(rest, "-");
      FrontAndEnd(rest[1..], text);
      PrereleaseSuffix(rest, text, end);
      PutTogether(tag, v, major, minor, patch, Some(text), BuildOf(end));
    } else {
      BareSuffix(rest);
      PutTogether(tag, v, major, minor, patch, None, BuildOf(rest));
    }
  }

  lemma {:induction false} PutTogether(tag: string, v: StableVersion, major: string, minor: string, patch: string,
      prerelease: Option<string>, build: Option<string>)
    requires SpelledStable(tag, v, major, minor, patch, prerelease, build)
    ensures SpellsStable(tag, v)
  {
    hide SpelledStable;
  }

  function BuildOf(end: string): Option<string> {
    if end == [] then None else Some(end[1..])
  }

  lemma {:induction false} BareSuffix(rest: string)
    requires IsBuildSuffix(rest)
    ensures rest == Suffix(None, BuildOf(rest)) && (BuildOf(rest).Some? ==> IsPart(BuildOf(rest).value))
  {
    hide AllTagChars;
    BuildText(rest);
  }

  lemma {:induction false} PrereleaseSuffix(rest: string, text: string, end: string)
    requires rest == "-" + (text + end) && IsPart(text) && IsBuildSuffix(end)
    ensures rest == Suffix(Some(text), BuildOf(end)) && (BuildOf(end).Some? ==> IsPart(BuildOf(end).value))
  {
    hide AllTagChars;
    BuildText(end);
  }

  lemma {:induction false} FrontAndEnd(s: string, front: string)
    requires front <= s
    ensures s == front + s[|front|..]
  {
  }

  lemma {:induction false} BuildText(end: string)
    requires IsBuildSuffix(end)
    ensures end != [] ==> end == "+" + end[1..] && IsPart(end[1..])
  {
    hide AllTagChars;
  }

  /** The stable parser accepts exactly these tags. */
  lemma {:induction false} StableTagMeaning(tag: string, v: StableVersion)
    ensures ParseStableTag(tag) == Some(v) <==> SpellsStable(tag, v)
  {
    hide ParseStableTag, SpelledStable;
    if ParseStableTag(tag).Some? {
      StableIsSpelled(tag);
    }
    if SpellsStable(tag, v) {
      var major, minor, patch, prerelease, build :|
        SpelledStable(tag, v, major, minor, patch, prerelease, build);
      SpelledIsStable(tag, v, major, minor, patch, prerelease, build);
    }
  }

  // ----- Nightly tags -----

  predicate SpelledNightly(tag: string, v: NightlyVersion, major: string, minor: string, patch: string, date: string,
      run: string) {
    && AreNumeric(major, minor, patch) && IsNumeric(date) && |date| == 8 && IsNumeric(run)
    && tag == "v" + (CoreText(major, minor, patch) + ("-nightly." + (date + "." + run)))
    && v == NightlyVersion(DigitsValue(major), DigitsValue(minor), DigitsValue(patch), DigitsValue(date),
                           DigitsValue(run))
  }

  /** `v`, three numbers, `-nightly.`, eight digits and a number, perhaps all behind `nightly-`. */
  ghost predicate SpellsNightly(tag: string, v: NightlyVersion) {
    exists major, minor, patch, date, run ::
      || SpelledNightly(tag, v, major, minor, patch, date, run)
      || (StartsWith(tag, "nightly-") && SpelledNightly(tag[8..], v, major, minor, patch, date, run))
  }

  lemma {:induction false} SpelledIsNightly(tag: string, v: NightlyVersion, major: string, minor: string, patch: string,
      date: string, run: string)
    requires SpelledNightly(tag, v, major, minor, patch, date, run)
    ensures ParseCurrentNightlyTag(tag) == Some(v) && tag != [] && tag[0] == 'v'
  {
    hide ScanCore, CoreText, DigitsValue, IsDigit;
    var last := date + "." + run;
    var rest := NIGHTLY_MARK + last;
    assert "-nightly." + last == rest;
    assert tag[1..] == CoreText(major, minor, patch) + rest;
    Signs();
    ScanMeaning(tag[1..], major, minor, patch, rest);
    assert rest[..|NIGHTLY_MARK|] == NIGHTLY_MARK && rest[|NIGHTLY_MARK|..] == last;
    assert last[..8] == date && last[8] == '.' && last[9..] == run;
  }

  lemma {:induction false} NightlyIsSpelled(tag: string)
    requires ParseCurrentNightlyTag(tag).Some?
    ensures exists major, minor, patch, date, run ::
              SpelledNightly(tag, ParseCurrentNightlyTag(tag).value, major, minor, patch, date, run)
  {
    hide ScanCore, CoreText, DigitsValue, IsDigit;
    var v := ParseCurrentNightlyTag(tag).value;
    var Core(major, minor, patch, rest) := ScanCore(tag[1..]).value;
    ScanIsSpelled(tag[1..]);
    ScanMeaning(tag[1..], major, minor, patch, rest);
    assert tag == "v" + tag[1..];
    var last := rest[|NIGHTLY_MARK|..];
    var date, run := last[..8], last[9..];
    assert rest == NIGHTLY_MARK + last && last == date + "." + run;
    assert SpelledNightly(tag, v, major, minor, patch, date, run);
  }

  /** The nightly parser accepts exactly these tags. */
  lemma {:induction false} NightlyTagMeaning(tag: string, v: NightlyVersion)
    ensures ParseNightlyTag(tag) == Some(v) <==> SpellsNightly(tag, v)
  {
    hide ParseCurrentNightlyTag, SpelledNightly;
    var legacy := StartsWith(tag, LEGACY_PREFIX);
    var inner := if legacy then tag[8..] else tag;
    assert LEGACY_PREFIX == "nightly-" && |LEGACY_PREFIX| == 8;
    if ParseCurrentNightlyTag(inner).Some? {
      NightlyIsSpelled(inner);
    }
    if SpellsNightly(tag, v) {
      var major, minor, patch, date, run :|
        || SpelledNightly(tag, v, major, minor, patch, date, run)
        || (StartsWith(tag, "nightly-") && SpelledNightly(tag[8..], v, major, minor, patch, date, run));
      if SpelledNightly(tag, v, major, minor, patch, date, run) {
        SpelledIsNightly(tag, v, major, minor, patch, date, run);
        NotLegacy(tag);
      } else {
        SpelledIsNightly(tag[8..], v, major, minor, patch, date, run);
      }
    }
  }

  /** Major, minor, patch, date and run number, the first that differs deciding. */
  function Fields(v: NightlyVersion): (f: seq<int>)
    ensures |f| == 5
  {
    [v.major, v.minor, v.patch, v.date, v.run]
  }

  predicate IsLowerAt(x: NightlyVersion, y: NightlyVersion, k: nat) {
    k < 5 && Fields(x)[k] < Fields(y)[k] && forall j :: 0 <= j < k ==> Fields(x)[j] == Fields(y)[j]
  }

  lemma {:induction false} NightlyMeaning(x: NightlyVersion, y: NightlyVersion)
    ensures CompareNightly(x, y) < 0 <==> exists k: nat :: IsLowerAt(x, y, k)
  {
    var k := if x.major != y.major then 0 else if x.minor != y.minor then 1 else if x.patch != y.patch then 2
             else if x.date != y.date then 3 else 4;
    assert CompareNightly(x, y) == Fields(x)[k] - Fields(y)[k];
    assert forall j :: 0 <= j < k ==> Fields(x)[j] == Fields(y)[j];
    if j: nat :| IsLowerAt(x, y, j) {
      assert j == 0 || j == 1 || j == 2 || j == 3 || j == 4;
    }
    if CompareNightly(x, y) < 0 {
      assert IsLowerAt(x, y, k);
    }
  }

  // ----- The desktop version -----

  /** A sign at position `i` with nothing but its own line behind it. */
  predicate CutsAt(version: string, i: nat) {
    i < |version| && (version[i] == '-' || version[i] == '+') && OneLine(version[i + 1..])
  }

  /** The version up to the first such sign. */
  lemma {:induction false} BaseVersionMeaning(version: string)
    ensures var base := NightlyBaseVersion(version);
            && base <= version && (forall i: nat :: i < |base| ==> !CutsAt(version, i))
            && (|base| < |version| ==> CutsAt(version, |base|))
  {
    if version != [] && !CutsAt(version, 0) {
      var rest := version[1..];
      BaseVersionMeaning(rest);
      forall i: nat | 0 < i < |version|
        ensures CutsAt(version, i) <==> CutsAt(rest, i - 1)
      {
        assert version[i + 1..] == rest[i..];
      }
      hide OneLine;
    }
  }

  /** The base version is these three numbers, and the target has the patch number raised. */
  predicate IsTarget(version: string, target: string, major: string, minor: string, patch: string) {
    && AreNumeric(major, minor, patch) && NightlyBaseVersion(version) == CoreText(major, minor, patch)
    && target == CoreText(major, minor, NatText(DigitsValue(patch) + 1))
  }

  /** A desktop version has a target exactly when its base version is three numbers; major and minor stay as written. */
  lemma {:induction false} TargetMeaning(version: string, target: string)
    ensures NightlyTargetVersion(version) == Ok(target) <==>
            exists major, minor, patch :: IsTarget(version, target, major, minor, patch)
  {
    hide ScanCore, NightlyBaseVersion, NatText, DigitsValue, IsDigit;
    var base := NightlyBaseVersion(version);
    if NightlyTargetVersion(version) == Ok(target) {
      var Core(major, minor, patch, rest) := ScanCore(base).value;
      ScanMeaning(base, major, minor, patch, "");
      assert CoreText(major, minor, patch) + "" == CoreText(major, minor, patch);
      assert IsTarget(version, target, major, minor, patch);
    }
    if major, minor, patch :| IsTarget(version, target, major, minor, patch) {
      assert CoreText(major, minor, patch) + "" == CoreText(major, minor, patch);
      ScanMeaning(base, major, minor, patch, "");
    }
  }
}
